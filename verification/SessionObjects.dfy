/**
 * The objects of the session layer, each method proved to do what the specification says: the accessor
 * (packages/session/src/index.ts), the handler (packages/handler/src/handlerMain.ts), the broker's dispatch
 * (packages/handler/src/msgActions.ts) and the portal (packages/portal/src/portal.ts).
 */
module SessionObjects {
  import opened Wrappers
  import opened SessionSpec

  /** A session backend with its clock, and a ghost record of all writes. */
  class Backend {
    var now: nat
    var records: map<Id, Record>
    ghost var log: seq<Write>

    ghost predicate Valid()
      reads this
    {
      forall id: Id {:trigger Value(log, id)} :: Value(log, id) == if id in records then Some(records[id]) else None
    }

    ghost function Store(): Store
      reads this
    {
      SessionSpec.Store(now, log)
    }

    constructor (start: nat)
      ensures Valid() && log == [] && now == start
    {
      now, records, log := start, map[], [];
    }

    method Update(id: Id, data: Record)
      requires Valid()
      modifies this
      ensures Valid() && Store() == Written(old(Store()), id, Some(data))
    {
      records := records[id := data];
      log := log + [Write(now, id, Some(data))];
      ValueAppended(old(log), Write(now, id, Some(data)));
    }
  }

  lemma ValueAppended(log: seq<Write>, w: Write)
    ensures forall id: Id {:trigger Value(log + [w], id)} ::
              Value(log + [w], id) == if w.id == id then w.value else Value(log, id)
  {
    assert (log + [w])[..|log|] == log;
  }

  class Session {
    const backend: Backend
    const localTtl: nat
    var inMemoryCache: map<Id, Cached>
    var localCache: Option<map<Id, Cached>>

    function State(): Accessor
      reads this
    {
      Accessor(inMemoryCache, localCache, localTtl)
    }

    constructor (backend: Backend, cacheModule: bool, ttl: nat)
      ensures this.backend == backend && fresh(this)
      ensures State() == Accessor(map[], if cacheModule then Some(map[]) else None, ttl)
    {
      this.backend, localTtl, inMemoryCache := backend, ttl, map[];
      localCache := if cacheModule then Some(map[]) else None;
    }

    method SetCaches(id: Id, data: Record)
      modifies this
      ensures State() == Put(old(State()), id, data, backend.now)
    {
      inMemoryCache := inMemoryCache[id := Cached(data, backend.now)];
      if localCache.Some? {
        localCache := Some(localCache.value[id := Cached(data, backend.now)]);
      }
    }

    /** `get`; nothing when the backend rejects */
    method Get(id: Id) returns (session: Option<Record>)
      requires backend.Valid()
      modifies this
      ensures (State(), session) == SessionSpec.Get(backend.Store(), old(State()), id)
    {
      assert Value(backend.log, id) == if id in backend.records then Some(backend.records[id]) else None;
      if Hit(inMemoryCache, id, MEMORY_TTL, backend.now) {
        return Some(inMemoryCache[id].record);
      }
      if localCache.Some? && Hit(localCache.value, id, localTtl, backend.now) {
        return Some(localCache.value[id].record);
      }
      if id !in backend.records {
        return None;
      }
      var found := backend.records[id];
      SetCaches(id, found);
      return Some(found);
    }

    /** `update` */
    method Update(id: Id, data: Record)
      requires backend.Valid()
      modifies this, backend
      ensures backend.Valid() && backend.Store() == Written(old(backend.Store()), id, Some(data))
      ensures State() == Put(old(State()), id, data, backend.now)
    {
      backend.Update(id, data);
      SetCaches(id, data);
    }

    method ClearMemoryCache(id: Id)
      modifies this
      ensures inMemoryCache == old(inMemoryCache) - {id} && localCache == old(localCache)
    {
      inMemoryCache := inMemoryCache - {id};
    }

    method ClearLocalCache(id: Id)
      modifies this
      ensures inMemoryCache == old(inMemoryCache)
      ensures localCache == if old(localCache).Some? then Some(old(localCache).value - {id}) else None
    {
      if localCache.Some? {
        localCache := Some(localCache.value - {id});
      }
    }
  }

  datatype BrokerMessage = BrokerMessage(action: string, id: Id)

  /** The message in the specification's terms; a reload yields a new accessor or fails. */
  function MessageOf(msg: BrokerMessage, reloaded: Option<Accessor>): Message {
    if msg.action == "reload" then Reload(reloaded)
    else if msg.action == "unlog" then UnlogMessage(msg.id)
    else if msg.action == "newSession" then NewSession(msg.id)
    else if msg.action == "delSession" then DelSession(msg.id)
    else if msg.action == "ping" then Ping
    else Other
  }

  class Handler {
    const conf: Conf
    var sessionAcc: Session
    var lastSessionId: Option<Id>
    var lastSessionData: Option<Record>
    var lastSessionTime: nat

    predicate Valid()
      reads this
    {
      lastSessionId.Some? <==> lastSessionData.Some?
    }

    ghost function State(): System
      reads this, sessionAcc, sessionAcc.backend
      requires Valid()
    {
      System(sessionAcc.backend.Store(), sessionAcc.State(),
             if lastSessionId.Some? then Some(Last(lastSessionId.value, lastSessionData.value, lastSessionTime))
             else None)
    }

    constructor (conf: Conf, sessionAcc: Session)
      ensures Valid() && this.conf == conf && this.sessionAcc == sessionAcc
      ensures State() == System(sessionAcc.backend.Store(), sessionAcc.State(), None)
    {
      this.conf, this.sessionAcc := conf, sessionAcc;
      lastSessionId, lastSessionData, lastSessionTime := None, None, 0;
    }

    /** `retrieveSession`; nothing when it rejects */
    method RetrieveSession(id: Id) returns (session: Option<Record>)
      requires Valid() && sessionAcc.backend.Valid()
      modifies this, sessionAcc, sessionAcc.backend
      ensures Valid() && sessionAcc == old(sessionAcc) && sessionAcc.backend.Valid()
      ensures (State(), session) == Retrieve(conf, old(State()), id)
    {
      var now := Seconds(sessionAcc.backend.now);
      var internalCacheTimeout := if conf.handlerInternalCache == 0 then 15 else conf.handlerInternalCache;
      if lastSessionId == Some(id) && lastSessionData.Some? && now - lastSessionTime < internalCacheTimeout {
        return lastSessionData;
      }
      lastSessionId, lastSessionData := None, None;
      session := sessionAcc.Get(id);
      if session.None? || Expired(conf, session.value, now) {
        return None;
      }
      if Refreshed(conf, session.value, now) {
        session := Some(session.value.(lastSeen := Some(now)));
        sessionAcc.Update(id, session.value);
      }
      lastSessionId, lastSessionData, lastSessionTime := Some(id), session, now;
    }

    /** `localUnlog` */
    method LocalUnlog(sessionId: Id)
      requires Valid()
      modifies this, sessionAcc
      ensures Valid() && sessionAcc == old(sessionAcc)
      ensures State() == Unlog(old(State()), sessionId) && lastSessionId == None
      ensures sessionId == "" && old(lastSessionId) in {None, Some("")} ==>
                sessionAcc.State() == old(sessionAcc.State())
      ensures forall id: Id :: id != "" && (id == sessionId || (sessionId == "" && old(lastSessionId) == Some(id))) ==>
                && sessionAcc.inMemoryCache == old(sessionAcc.inMemoryCache) - {id}
                && sessionAcc.localCache.Some? == old(sessionAcc.localCache).Some?
                && (sessionAcc.localCache.Some? ==>
                      sessionAcc.localCache.value == old(sessionAcc.localCache).value - {id})
    {
      var id := if sessionId != "" then sessionId else if lastSessionId.Some? then lastSessionId.value else "";
      lastSessionId, lastSessionData, lastSessionTime := None, None, 0;
      if id != "" {
        sessionAcc.ClearMemoryCache(id);
        sessionAcc.ClearLocalCache(id);
      }
    }
  }

  /** `processMessage`; `reloaded` is what `reload` makes of the configuration, null when it fails. */
  method ProcessMessage(handler: Handler, msg: BrokerMessage, reloaded: Session?) returns (processed: bool)
    requires handler.Valid() && (reloaded != null ==> reloaded.backend == handler.sessionAcc.backend)
    modifies handler, handler.sessionAcc
    ensures handler.Valid()
    ensures handler.sessionAcc ==
            if msg.action == "reload" && reloaded != null then reloaded else old(handler.sessionAcc)
    ensures (handler.State(), processed) ==
            Process(old(handler.State()),
                    MessageOf(msg, if reloaded == null then None else Some(old(reloaded.State()))))
    ensures processed <==>
            || msg.action in {"newSession", "ping"}
            || (msg.action in {"unlog", "delSession"} && msg.id != "")
            || (msg.action == "reload" && reloaded != null)
    ensures msg.action in {"unlog", "delSession"} && msg.id != "" ==>
              && handler.lastSessionId == None
              && handler.sessionAcc.inMemoryCache == old(handler.sessionAcc.inMemoryCache) - {msg.id}
              && (handler.sessionAcc.localCache.Some? ==> msg.id !in handler.sessionAcc.localCache.value)
    ensures !(msg.action in {"unlog", "delSession"} && msg.id != "") ==>
              && handler.lastSessionId == old(handler.lastSessionId)
              && handler.lastSessionData == old(handler.lastSessionData)
              && handler.lastSessionTime == old(handler.lastSessionTime)
              && (msg.action != "reload" || reloaded == null ==>
                    handler.sessionAcc.State() == old(handler.sessionAcc.State()))
  {
    match msg.action
    case "reload" =>
      if reloaded == null {
        return false;
      }
      handler.sessionAcc := reloaded;
      return true;
    case "unlog" =>
      if msg.id == "" {
        return false;
      }
      handler.LocalUnlog(msg.id);
      return true;
    case "newSession" => return true;
    case "delSession" =>
      if msg.id == "" {
        return false;
      }
      handler.LocalUnlog(msg.id);
      return true;
    case "ping" => return true;
    case _ => return false;
  }

  class Portal {
    const timeout: nat
    const sessionAcc: Session

    constructor (timeout: nat, sessionAcc: Session)
      ensures this.timeout == timeout && this.sessionAcc == sessionAcc
    {
      this.timeout, this.sessionAcc := timeout, sessionAcc;
    }

    /** `getSession`: with a timeout of zero sessions do not expire. */
    method GetSession(sessionId: Id) returns (session: Option<Record>)
      requires sessionAcc.backend.Valid()
      modifies sessionAcc
      ensures var (acc, got) := SessionSpec.Get(sessionAcc.backend.Store(), old(sessionAcc.State()), sessionId);
              && sessionAcc.State() == acc
              && session == if && got.Some? && timeout > 0
                               && Seconds(sessionAcc.backend.now) - got.value.utime > timeout then None
                            else got
    {
      session := sessionAcc.Get(sessionId);
      if session.Some? && timeout > 0 && Seconds(sessionAcc.backend.now) - session.value.utime > timeout {
        return None;
      }
    }

    /** `deleteSession` */
    method DeleteSession(sessionId: Id)
      requires sessionAcc.backend.Valid()
      modifies sessionAcc, sessionAcc.backend
      ensures sessionAcc.backend.Valid()
      ensures (sessionAcc.backend.Store(), sessionAcc.State()) ==
              Delete(old(sessionAcc.backend.Store()), old(sessionAcc.State()), sessionId)
    {
      var session := sessionAcc.Get(sessionId);
      if session.Some? {
        sessionAcc.Update(sessionId, session.value.(utime := 0));
      }
    }
  }
}
