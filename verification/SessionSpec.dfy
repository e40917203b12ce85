/**
 * The caches above the session backend (packages/session/src/index.ts, packages/handler/src/handlerMain.ts), the
 * portal's logout (packages/portal/src/portal.ts) and the broker's messages (packages/handler/src/msgActions.ts).
 */
module SessionSpec {
  import opened Wrappers

  type Id = string

  /** A session; `lastSeen` is absent from sessions that never had one. */
  datatype Record = Record(utime: int, lastSeen: Option<int>, content: string)

  // ---------------------------------------------------------------- the backend

  datatype Write = Write(at: nat, id: Id, value: Option<Record>)

  /** The backend as the clock, in milliseconds, and all that was written. */
  datatype Store = Store(now: nat, log: seq<Write>)

  function Value(log: seq<Write>, id: Id): Option<Record> {
    if |log| == 0 then None
    else if log[|log| - 1].id == id then log[|log| - 1].value
    else Value(log[..|log| - 1], id)
  }

  function Seconds(ms: nat): nat {
    ms / 1000
  }

  // ---------------------------------------------------------------- the accessor

  datatype Cached = Cached(record: Record, at: nat)

  const MEMORY_TTL: nat := 120000

  /** The in-memory cache, and the local cache when there is one. */
  datatype Accessor = Accessor(memory: map<Id, Cached>, local: Option<map<Id, Cached>>, localTtl: nat)

  predicate Hit(cache: map<Id, Cached>, id: Id, ttl: nat, now: nat) {
    id in cache && now <= cache[id].at + ttl
  }

  function Put(acc: Accessor, id: Id, r: Record, now: nat): Accessor {
    var entry := Cached(r, now);
    Accessor(acc.memory[id := entry], if acc.local.Some? then Some(acc.local.value[id := entry]) else None,
             acc.localTtl)
  }

  /** `Session.get`; a hit in the local cache is not copied to the in-memory cache. */
  function Get(store: Store, acc: Accessor, id: Id): (Accessor, Option<Record>) {
    if Hit(acc.memory, id, MEMORY_TTL, store.now) then (acc, Some(acc.memory[id].record))
    else if acc.local.Some? && Hit(acc.local.value, id, acc.localTtl, store.now) then
      (acc, Some(acc.local.value[id].record))
    else match Value(store.log, id)
      case None => (acc, None)
      case Some(r) => (Put(acc, id, r, store.now), Some(r))
  }

  function Written(store: Store, id: Id, value: Option<Record>): Store {
    store.(log := store.log + [Write(store.now, id, value)])
  }

  /** `clearMemoryCache` and `clearLocalCache` */
  function Clear(acc: Accessor, id: Id): Accessor {
    Accessor(acc.memory - {id}, if acc.local.Some? then Some(acc.local.value - {id}) else None, acc.localTtl)
  }

  // ---------------------------------------------------------------- the handler

  datatype Conf = Conf(timeout: nat, timeoutActivity: nat, handlerInternalCache: nat)

  function InternalTimeout(conf: Conf): (t: nat)
    ensures t > 0
  {
    if conf.handlerInternalCache == 0 then 15 else conf.handlerInternalCache
  }

  datatype Last = Last(id: Id, record: Record, time: nat)

  datatype System = System(store: Store, acc: Accessor, last: Option<Last>)

  predicate Expired(conf: Conf, r: Record, now: nat) {
    || now - r.utime > conf.timeout
    || (conf.timeoutActivity > 0 && r.lastSeen.Some? && r.lastSeen.value != 0 &&
        now - r.lastSeen.value > conf.timeoutActivity)
  }

  predicate Refreshed(conf: Conf, r: Record, now: nat) {
    conf.timeoutActivity > 0 && r.lastSeen.Some? && now - r.lastSeen.value > 60
  }

  predicate InternalHit(conf: Conf, s: System, id: Id) {
    s.last.Some? && s.last.value.id == id && Seconds(s.store.now) - s.last.value.time < InternalTimeout(conf)
  }

  /** What `retrieveSession` makes of the answer of the accessor. */
  function Fetched(conf: Conf, store: Store, acc: Accessor, got: Option<Record>, id: Id): (System, Option<Record>) {
    var now := Seconds(store.now);
    if got.None? || Expired(conf, got.value, now) then (System(store, acc, None), None)
    else if Refreshed(conf, got.value, now) then
      var seen := got.value.(lastSeen := Some(now));
      (System(Written(store, id, Some(seen)), Put(acc, id, seen, store.now), Some(Last(id, seen, now))), Some(seen))
    else (System(store, acc, Some(Last(id, got.value, now))), got)
  }

  /** `retrieveSession` */
  function Retrieve(conf: Conf, s: System, id: Id): (System, Option<Record>) {
    if InternalHit(conf, s, id) then (s, Some(s.last.value.record))
    else
      var (acc, got) := Get(s.store, s.acc, id);
      Fetched(conf, s.store, acc, got, id)
  }

  /** `localUnlog`: without an id, the session kept last. */
  function Unlog(s: System, sessionId: Id): System {
    if sessionId != "" then System(s.store, Clear(s.acc, sessionId), None)
    else if s.last.Some? && s.last.value.id != "" then System(s.store, Clear(s.acc, s.last.value.id), None)
    else System(s.store, s.acc, None)
  }

  datatype Message =
    | Reload(acc: Option<Accessor>)
    | UnlogMessage(id: Id)
    | NewSession(id: Id)
    | DelSession(id: Id)
    | Ping
    | Other

  /** `processMessage`; a successful reload brings a new accessor, an absent id is the empty one. */
  function Process(s: System, m: Message): (System, bool) {
    match m
    case Reload(acc) => if acc.Some? then (s.(acc := acc.value), true) else (s, false)
    case UnlogMessage(id) => if id != "" then (Unlog(s, id), true) else (s, false)
    case DelSession(id) => if id != "" then (Unlog(s, id), true) else (s, false)
    case NewSession(_) => (s, true)
    case Ping => (s, true)
    case Other => (s, false)
  }

  /** The portal's `deleteSession`, on the portal's own accessor. */
  function Delete(store: Store, portal: Accessor, id: Id): (Store, Accessor) {
    var (acc, got) := Get(store, portal, id);
    match got
    case None => (store, acc)
    case Some(r) =>
      var ended := r.(utime := 0);
      (Written(store, id, Some(ended)), Put(acc, id, ended, store.now))
  }
}
