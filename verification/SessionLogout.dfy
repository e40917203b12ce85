/**
 * Logout: the portal's `deleteSession` (packages/portal/src/portal.ts), the broker's message
 * (packages/handler/src/msgActions.ts) and the handler that may still hold the session in its caches
 * (packages/handler/src/handlerMain.ts).
 */
module SessionLogout {
  import opened Wrappers
  import opened SessionSpec
  import opened SessionRuns

  // ---------------------------------------------------------------- what brings an ended session back

  /** Absent, or marked by the portal. */
  predicate Ended(value: Option<Record>) {
    value.Some? ==> value.value.utime == 0
  }

  /** After `deleteSession` the backend's value is absent or marked; what is written is the session the portal read,
      with no other change. */
  lemma DeleteEnds(store: Store, portal: Accessor, id: Id)
    ensures Ended(Value(Delete(store, portal, id).0.log, id))
    ensures Delete(store, portal, id).0.now == store.now
    ensures match Get(store, portal, id).1
            case None => Delete(store, portal, id).0 == store
            case Some(r) => Value(Delete(store, portal, id).0.log, id) == Some(Record(0, r.lastSeen, r.content))
    ensures forall other :: other != id ==> Value(Delete(store, portal, id).0.log, other) == Value(store.log, other)
  {
  }

  /** Another writer gives the session a start time again. */
  predicate Rewrites(e: Event, id: Id) {
    e.OtherWrite? && e.id == id && !Ended(e.value)
  }

  /** The handler writes back a cached copy, with a new `_lastSeen`. */
  predicate WritesBack(conf: Conf, s: System, e: Event, id: Id) {
    var now := s.store.now / 1000;
    var got := Get(s.store, s.acc, id).1;
    && e == Retrieval(id) && !InternalHit(conf, s, id)
    && got.Some? && !Expired(conf, got.value, now) && Refreshed(conf, got.value, now)
  }

  /** Exactly these steps bring an ended session back in the backend. */
  lemma EndedExactly(conf: Conf, s: System, e: Event, id: Id)
    requires Ended(Value(s.store.log, id)) && Seconds(s.store.now) > conf.timeout
    ensures Ended(Value(Step(conf, s, e).0.store.log, id)) <==> !Rewrites(e, id) && !WritesBack(conf, s, e, id)
  {
  }

  /** Whether the session is alive in the backend after a step, given whether it was before. */
  predicate AliveAfter(conf: Conf, s: System, e: Event, id: Id, alive: bool) {
    if e.OtherWrite? && e.id == id then !Ended(e.value) else alive || WritesBack(conf, s, e, id)
  }

  /** The run leaves the session alive: another writer or a write-back revived it, and nobody ended it again. */
  predicate Revived(conf: Conf, s: System, events: seq<Event>, id: Id, alive: bool)
    decreases |events|
  {
    if |events| == 0 then alive
    else Revived(conf, Step(conf, s, events[0]).0, events[1..], id, AliveAfter(conf, s, events[0], id, alive))
  }

  lemma AliveExactly(conf: Conf, s: System, e: Event, id: Id)
    requires Seconds(s.store.now) > conf.timeout
    ensures Ended(Value(Step(conf, s, e).0.store.log, id)) <==>
            !AliveAfter(conf, s, e, id, !Ended(Value(s.store.log, id)))
  {
  }

  lemma SecondsGrow(a: nat, b: nat)
    ensures Seconds(a + b) >= Seconds(a)
  {
  }

  lemma TimeGrows(conf: Conf, s: System, e: Event)
    ensures Step(conf, s, e).0.store.now >= s.store.now
    ensures Seconds(Step(conf, s, e).0.store.now) >= Seconds(s.store.now)
  {
    if e.Pass? {
      SecondsGrow(s.store.now, e.ms);
    }
  }

  /** After any run of any events the session is ended in the backend exactly when nothing revived it. */
  lemma {:induction false} RunEndedExactly(conf: Conf, s: System, events: seq<Event>, id: Id)
    requires Seconds(s.store.now) > conf.timeout
    ensures Seconds(Run(conf, s, events).store.now) > conf.timeout
    ensures Ended(Value(Run(conf, s, events).store.log, id)) <==>
            !Revived(conf, s, events, id, !Ended(Value(s.store.log, id)))
    decreases |events|
  {
    if |events| > 0 {
      AliveExactly(conf, s, events[0], id);
      TimeGrows(conf, s, events[0]);
      RunEndedExactly(conf, Step(conf, s, events[0]).0, events[1..], id);
    }
  }

  // ---------------------------------------------------------------- logged out on the handler

  /** Absent or expired. */
  predicate Dead(conf: Conf, value: Option<Record>, now: nat) {
    value.Some? ==> Expired(conf, value.value, now)
  }

  /** The cache does not hold the session, or an expired copy. */
  predicate Gone(conf: Conf, cache: map<Id, Cached>, id: Id, now: nat) {
    id in cache ==> Expired(conf, cache[id].record, now)
  }

  predicate LoggedOut(conf: Conf, s: System, id: Id) {
    var now := Seconds(s.store.now);
    && Dead(conf, Value(s.store.log, id), now)
    && Gone(conf, s.acc.memory, id, now)
    && (s.acc.local.Some? ==> Gone(conf, s.acc.local.value, id, now))
    && (s.last.Some? ==> s.last.value.id != id)
    && now > conf.timeout
  }

  lemma GetLoggedOut(conf: Conf, s: System, other: Id, id: Id)
    requires LoggedOut(conf, s, id)
    ensures var (acc, got) := Get(s.store, s.acc, other);
            LoggedOut(conf, s.(acc := acc), id) && (other == id ==> Dead(conf, got, Seconds(s.store.now)))
  {
  }

  lemma RetrieveRejects(conf: Conf, s: System, id: Id)
    requires LoggedOut(conf, s, id)
    ensures LoggedOut(conf, Retrieve(conf, s, id).0, id) && Retrieve(conf, s, id).1 == None
  {
    GetLoggedOut(conf, s, id, id);
    var (acc, got) := Get(s.store, s.acc, id);
    assert Retrieve(conf, s, id) == (System(s.store, acc, None), None);
  }

  lemma OtherWritten(conf: Conf, s: System, other: Id, id: Id, seen: Record)
    requires LoggedOut(conf, s, id) && other != id
    ensures LoggedOut(conf, System(Written(s.store, other, Some(seen)), Put(s.acc, other, seen, s.store.now),
                                   Some(Last(other, seen, Seconds(s.store.now)))), id)
  {
  }

  lemma FetchedOther(conf: Conf, s: System, got: Option<Record>, other: Id, id: Id)
    requires LoggedOut(conf, s, id) && other != id
    ensures LoggedOut(conf, Fetched(conf, s.store, s.acc, got, other).0, id)
  {
    if got.Some? {
      OtherWritten(conf, s, other, id, got.value.(lastSeen := Some(Seconds(s.store.now))));
    }
  }

  lemma RetrieveOther(conf: Conf, s: System, other: Id, id: Id)
    requires LoggedOut(conf, s, id) && other != id
    ensures LoggedOut(conf, Retrieve(conf, s, other).0, id)
  {
    GetLoggedOut(conf, s, other, id);
    var (acc, got) := Get(s.store, s.acc, other);
    FetchedOther(conf, s.(acc := acc), got, other, id);
  }

  /** What is expired stays expired. */
  lemma PassLoggedOut(conf: Conf, s: System, ms: nat, id: Id)
    requires LoggedOut(conf, s, id)
    ensures LoggedOut(conf, Step(conf, s, Pass(ms)).0, id)
  {
    SecondsGrow(s.store.now, ms);
  }

  lemma WriteLoggedOut(conf: Conf, s: System, other: Id, value: Option<Record>, id: Id)
    requires LoggedOut(conf, s, id) && !Rewrites(OtherWrite(other, value), id)
    ensures LoggedOut(conf, Step(conf, s, OtherWrite(other, value)).0, id)
  {
  }

  lemma ClearLoggedOut(conf: Conf, s: System, other: Id, id: Id)
    requires LoggedOut(conf, s, id)
    ensures LoggedOut(conf, Unlog(s, other), id)
  {
  }

  lemma MessageLoggedOut(conf: Conf, s: System, m: Message, lower: nat, id: Id)
    requires LoggedOut(conf, s, id) && Allowed(Received(m), lower)
    ensures LoggedOut(conf, Process(s, m).0, id)
  {
    match m
    case UnlogMessage(other) => ClearLoggedOut(conf, s, other, id);
    case DelSession(other) => ClearLoggedOut(conf, s, other, id);
    case _ =>
  }

  /** The session stays logged out on the handler until another writer rewrites it. */
  lemma StepLoggedOut(conf: Conf, s: System, e: Event, lower: nat, id: Id)
    requires LoggedOut(conf, s, id) && Allowed(e, lower) && !Rewrites(e, id)
    ensures LoggedOut(conf, Step(conf, s, e).0, id)
    ensures e == Retrieval(id) ==> Step(conf, s, e).1 == None
  {
    match e
    case Pass(ms) => PassLoggedOut(conf, s, ms, id);
    case OtherWrite(other, value) => WriteLoggedOut(conf, s, other, value, id);
    case MemoryForgets(other) =>
    case LocalForgets(other) =>
    case Retrieval(other) =>
      if other == id {
        RetrieveRejects(conf, s, id);
      } else {
        RetrieveOther(conf, s, other, id);
      }
    case Received(m) => MessageLoggedOut(conf, s, m, lower, id);
    case LocalUnlog(other) => ClearLoggedOut(conf, s, other, id);
  }

  /** Every retrieval of the session in the run rejects. */
  predicate AllReject(conf: Conf, s: System, events: seq<Event>, id: Id)
    decreases |events|
  {
    |events| > 0 ==>
      && (events[0] == Retrieval(id) ==> Step(conf, s, events[0]).1 == None)
      && AllReject(conf, Step(conf, s, events[0]).0, events[1..], id)
  }

  predicate NoRewrite(events: seq<Event>, lower: nat, id: Id) {
    forall i :: 0 <= i < |events| ==> Allowed(events[i], lower) && !Rewrites(events[i], id)
  }

  lemma {:induction false} StaysLoggedOut(conf: Conf, s: System, events: seq<Event>, lower: nat, id: Id)
    requires LoggedOut(conf, s, id) && NoRewrite(events, lower, id)
    ensures AllReject(conf, s, events, id) && LoggedOut(conf, Run(conf, s, events), id)
    decreases |events|
  {
    if |events| > 0 {
      StepLoggedOut(conf, s, events[0], lower, id);
      StaysLoggedOut(conf, Step(conf, s, events[0]).0, events[1..], lower, id);
    }
  }

  // ---------------------------------------------------------------- after the message

  /** Whatever follows but a rewriting, every retrieval of the session rejects. */
  ghost predicate EverRejects(conf: Conf, s: System, lower: nat, id: Id) {
    forall after :: NoRewrite(after, lower, id) ==> AllReject(conf, s, after, id)
  }

  lemma MessageClears(s: System, id: Id, m: Message)
    requires id != "" && m in {UnlogMessage(id), DelSession(id)}
    ensures Process(s, m).0 == System(s.store, Clear(s.acc, id), None)
  {
  }

  /** Right after the message a retrieval gives the backend's value, unless it is expired. */
  lemma RetrievedAfterMessage(conf: Conf, s: System, id: Id, m: Message)
    requires id != "" && m in {UnlogMessage(id), DelSession(id)}
    ensures Retrieve(conf, Process(s, m).0, id).1.None? <==> Dead(conf, Value(s.store.log, id), Seconds(s.store.now))
  {
    MessageClears(s, id, m);
    assert Get(s.store, Clear(s.acc, id), id).1 == Value(s.store.log, id);
  }

  /** The message logs the session out on the handler for good exactly when the backend's value is absent or expired. */
  lemma MessageExactly(conf: Conf, s: System, id: Id, m: Message, lower: nat)
    requires id != "" && m in {UnlogMessage(id), DelSession(id)} && Seconds(s.store.now) > conf.timeout
    ensures EverRejects(conf, Process(s, m).0, lower, id) <==> Dead(conf, Value(s.store.log, id), Seconds(s.store.now))
  {
    var cleared := Process(s, m).0;
    RetrievedAfterMessage(conf, s, id, m);
    if Dead(conf, Value(s.store.log, id), Seconds(s.store.now)) {
      MessageClears(s, id, m);
      forall after | NoRewrite(after, lower, id)
        ensures AllReject(conf, cleared, after, id)
      {
        StaysLoggedOut(conf, cleared, after, lower, id);
      }
    }
    if EverRejects(conf, cleared, lower, id) {
      assert NoRewrite([Retrieval(id)], lower, id);
      assert AllReject(conf, cleared, [Retrieval(id)], id);
    }
  }

  /** The system once the portal has deleted the session. */
  function Deleted(s: System, portal: Accessor, id: Id): System {
    s.(store := Delete(s.store, portal, id).0)
  }

  /**
   * The portal deletes the session, anything may happen before the handler processes the message. If nothing revived
   * the session by then, every later retrieval rejects until another writer rewrites it.
   */
  lemma Logout(conf: Conf, s: System, portal: Accessor, id: Id, before: seq<Event>, m: Message, after: seq<Event>,
               lower: nat)
    requires id != "" && m in {UnlogMessage(id), DelSession(id)} && Seconds(s.store.now) > conf.timeout
    requires !Revived(conf, Deleted(s, portal, id), before, id, false) && NoRewrite(after, lower, id)
    ensures AllReject(conf, Process(Run(conf, Deleted(s, portal, id), before), m).0, after, id)
  {
    DeleteEnds(s.store, portal, id);
    RunEndedExactly(conf, Deleted(s, portal, id), before, id);
    MessageExactly(conf, Run(conf, Deleted(s, portal, id), before), id, m, lower);
  }

  /** The converse: a revived session that has not expired since is served right after the message. */
  lemma RevivedIsServed(conf: Conf, s: System, portal: Accessor, id: Id, before: seq<Event>, m: Message)
    requires id != "" && m in {UnlogMessage(id), DelSession(id)} && Seconds(s.store.now) > conf.timeout
    requires Revived(conf, Deleted(s, portal, id), before, id, false)
    ensures var reached := Run(conf, Deleted(s, portal, id), before);
            var value := Value(reached.store.log, id);
            && value.Some? && value.value.utime != 0
            && (Retrieve(conf, Process(reached, m).0, id).1.Some? <==>
                !Expired(conf, value.value, reached.store.now / 1000))
  {
    DeleteEnds(s.store, portal, id);
    RunEndedExactly(conf, Deleted(s, portal, id), before, id);
    RetrievedAfterMessage(conf, Run(conf, Deleted(s, portal, id), before), id, m);
  }

  // ---------------------------------------------------------------- the condition at the deletion

  /** The first moment at which the handler would refresh the copy. */
  function FirstRefresh(lastSeen: int, now: nat): (t: nat)
    ensures t >= now
  {
    if 1000 * (lastSeen + 61) > now then 1000 * (lastSeen + 61) else now
  }

  /** The cache holds a copy that it still answers, and that is not expired, when it is due to be refreshed. */
  predicate CanRefresh(conf: Conf, cache: map<Id, Cached>, ttl: nat, now: nat, id: Id) {
    && conf.timeoutActivity > 0 && id in cache && cache[id].record.lastSeen.Some?
    && var t := FirstRefresh(cache[id].record.lastSeen.value, now);
    && t <= cache[id].at + ttl
    && !Expired(conf, cache[id].record, t / 1000)
  }

  /** One of the handler's caches can bring the session back. */
  predicate CanReturn(conf: Conf, acc: Accessor, now: nat, id: Id) {
    || CanRefresh(conf, acc.memory, 120000, now, id)
    || (acc.local.Some? && CanRefresh(conf, acc.local.value, acc.localTtl, now, id))
  }

  /** At any later moment the conditions of a write-back are those of the first, or harder. */
  lemma RefreshedLater(conf: Conf, cache: map<Id, Cached>, ttl: nat, now: nat, later: nat, id: Id)
    requires later >= now && Hit(cache, id, ttl, later)
    requires !Expired(conf, cache[id].record, Seconds(later)) && Refreshed(conf, cache[id].record, Seconds(later))
    ensures CanRefresh(conf, cache, ttl, now, id)
  {
    SecondsBound(later);
    var t := FirstRefresh(cache[id].record.lastSeen.value, now);
    assert t <= later;
    SecondsGrow(t, later - t);
  }

  /** The copy is one the handler had at the deletion, or one fetched since. */
  predicate OldOrEnded(cache: map<Id, Cached>, old_: map<Id, Cached>, id: Id) {
    id in cache ==> cache[id].record.utime == 0 || (id in old_ && cache[id] == old_[id])
  }

  /** The session is ended, and the caches hold no other copies of it than those of the deletion. */
  predicate StillEnded(conf: Conf, s: System, acc: Accessor, now: nat, id: Id) {
    && Ended(Value(s.store.log, id)) && s.store.now >= now && Seconds(s.store.now) > conf.timeout
    && OldOrEnded(s.acc.memory, acc.memory, id)
    && (s.acc.local.Some? ==>
          OldOrEnded(s.acc.local.value,
                     if acc.local.Some? && s.acc.localTtl == acc.localTtl then acc.local.value else map[], id))
  }

  lemma NoWriteBack(conf: Conf, s: System, e: Event, acc: Accessor, now: nat, id: Id)
    requires StillEnded(conf, s, acc, now, id) && !CanReturn(conf, acc, now, id)
    ensures !WritesBack(conf, s, e, id)
  {
    if WritesBack(conf, s, e, id) {
      if Hit(s.acc.memory, id, MEMORY_TTL, s.store.now) {
        RefreshedLater(conf, acc.memory, MEMORY_TTL, now, s.store.now, id);
      } else if s.acc.local.Some? && Hit(s.acc.local.value, id, s.acc.localTtl, s.store.now) {
        RefreshedLater(conf, acc.local.value, acc.localTtl, now, s.store.now, id);
      }
    }
  }

  lemma RetrieveStillEnded(conf: Conf, s: System, other: Id, acc: Accessor, now: nat, id: Id)
    requires StillEnded(conf, s, acc, now, id) && !WritesBack(conf, s, Retrieval(other), id)
    ensures StillEnded(conf, Retrieve(conf, s, other).0, acc, now, id)
  {
    assert StillEnded(conf, s.(acc := Get(s.store, s.acc, other).0), acc, now, id);
  }

  lemma StepStillEnded(conf: Conf, s: System, e: Event, acc: Accessor, now: nat, id: Id, lower: nat)
    requires StillEnded(conf, s, acc, now, id) && Allowed(e, lower)
    requires !Rewrites(e, id) && !WritesBack(conf, s, e, id)
    ensures StillEnded(conf, Step(conf, s, e).0, acc, now, id)
  {
    EndedExactly(conf, s, e, id);
    TimeGrows(conf, s, e);
    match e
    case Retrieval(other) => RetrieveStillEnded(conf, s, other, acc, now, id);
    case _ =>
  }

  /** Some step of the run writes the session back. */
  predicate WrittenBack(conf: Conf, s: System, events: seq<Event>, id: Id)
    decreases |events|
  {
    |events| > 0
    && (WritesBack(conf, s, events[0], id) || WrittenBack(conf, Step(conf, s, events[0]).0, events[1..], id))
  }

  /** If no cache can bring the session back, no run without a rewriting writes it back. */
  lemma {:induction false} NeverWrittenBack(conf: Conf, s: System, events: seq<Event>, acc: Accessor, now: nat,
                                            id: Id, lower: nat)
    requires StillEnded(conf, s, acc, now, id) && !CanReturn(conf, acc, now, id) && NoRewrite(events, lower, id)
    ensures !WrittenBack(conf, s, events, id)
    decreases |events|
  {
    if |events| > 0 {
      NoWriteBack(conf, s, events[0], acc, now, id);
      StepStillEnded(conf, s, events[0], acc, now, id, lower);
      NeverWrittenBack(conf, Step(conf, s, events[0]).0, events[1..], acc, now, id, lower);
    }
  }

  lemma {:induction false} NotRevived(conf: Conf, s: System, events: seq<Event>, id: Id, lower: nat)
    requires NoRewrite(events, lower, id) && !WrittenBack(conf, s, events, id)
    ensures !Revived(conf, s, events, id, false)
    decreases |events|
  {
    if |events| > 0 {
      assert !Rewrites(events[0], id);
      NotRevived(conf, Step(conf, s, events[0]).0, events[1..], id, lower);
    }
  }

  lemma DeletedStillEnded(conf: Conf, s: System, portal: Accessor, id: Id)
    requires Seconds(s.store.now) > conf.timeout
    ensures StillEnded(conf, Deleted(s, portal, id), s.acc, s.store.now, id)
  {
    DeleteEnds(s.store, portal, id);
  }

  /** A copy in the memory cache is brought back by waiting, with another session retrieved first. */
  function MemoryReturns(conf: Conf, s: System, id: Id): seq<Event>
    requires id in s.acc.memory && s.acc.memory[id].record.lastSeen.Some?
  {
    var t := FirstRefresh(s.acc.memory[id].record.lastSeen.value, s.store.now);
    [Retrieval(id + "+"), Pass(t - s.store.now), Retrieval(id)]
  }

  /** A copy in the local cache, once the memory cache has forgotten its own. */
  function LocalReturns(conf: Conf, s: System, id: Id): seq<Event>
    requires s.acc.local.Some? && id in s.acc.local.value && s.acc.local.value[id].record.lastSeen.Some?
  {
    var t := FirstRefresh(s.acc.local.value[id].record.lastSeen.value, s.store.now);
    [Retrieval(id + "+"), MemoryForgets(id), Pass(t - s.store.now), Retrieval(id)]
  }

  /** Retrieving another session forgets the one kept last and touches no cached copy of it. */
  lemma OtherFirst(conf: Conf, s: System, other: Id, id: Id)
    requires other != id
    ensures var after := Retrieve(conf, s, other).0;
            && (after.last.Some? ==> after.last.value.id != id)
            && after.store.now == s.store.now && Value(after.store.log, id) == Value(s.store.log, id)
            && (id in s.acc.memory ==> id in after.acc.memory && after.acc.memory[id] == s.acc.memory[id])
            && after.acc.localTtl == s.acc.localTtl
            && (s.acc.local.Some? && id in s.acc.local.value ==>
                  after.acc.local.Some? && id in after.acc.local.value &&
                  after.acc.local.value[id] == s.acc.local.value[id])
  {
  }

  /** A copy due to be refreshed is written back, and alive from then on. */
  lemma DueIsWrittenBack(conf: Conf, s: System, c: Cached, id: Id)
    requires (s.last.Some? ==> s.last.value.id != id) && Get(s.store, s.acc, id).1 == Some(c.record)
    requires conf.timeoutActivity > 0 && c.record.lastSeen.Some?
    requires s.store.now >= 1000 * (c.record.lastSeen.value + 61) && !Expired(conf, c.record, Seconds(s.store.now))
    ensures WritesBack(conf, s, Retrieval(id), id)
    ensures var after := Retrieve(conf, s, id).0;
            && Value(after.store.log, id).Some? && after.store.now == s.store.now
            && !Expired(conf, Value(after.store.log, id).value, Seconds(s.store.now))
  {
    SecondsBound(s.store.now);
  }

  /** Alive in the backend. */
  predicate Alive(conf: Conf, s: System, id: Id) {
    !Dead(conf, Value(s.store.log, id), Seconds(s.store.now))
  }

  lemma RunFirst(conf: Conf, s: System, a: Event, rest: seq<Event>)
    ensures Run(conf, s, [a] + rest) == Run(conf, Step(conf, s, a).0, rest)
  {
    assert ([a] + rest)[1..] == rest;
  }

  lemma RunTwo(conf: Conf, s: System, a: Event, b: Event)
    ensures Run(conf, s, [a, b]) == Step(conf, Step(conf, s, a).0, b).0
  {
    RunFirst(conf, s, a, [b]);
    RunFirst(conf, Step(conf, s, a).0, b, []);
    assert [a] + [b] == [a, b] && [b] + [] == [b];
  }

  lemma RunThree(conf: Conf, s: System, a: Event, b: Event, c: Event)
    ensures Run(conf, s, [a, b, c]) == Step(conf, Step(conf, Step(conf, s, a).0, b).0, c).0
  {
    RunFirst(conf, s, a, [b, c]);
    RunTwo(conf, Step(conf, s, a).0, b, c);
    assert [a] + [b, c] == [a, b, c];
  }

  lemma RunFour(conf: Conf, s: System, a: Event, b: Event, c: Event, d: Event)
    ensures Run(conf, s, [a, b, c, d]) == Step(conf, Step(conf, Step(conf, Step(conf, s, a).0, b).0, c).0, d).0
  {
    RunFirst(conf, s, a, [b, c, d]);
    RunThree(conf, Step(conf, s, a).0, b, c, d);
    assert [a] + [b, c, d] == [a, b, c, d];
  }

  /** The same after waiting. */
  lemma WaitThenAlive(conf: Conf, s: System, ms: nat, c: Cached, id: Id)
    requires s.last.Some? ==> s.last.value.id != id
    requires Get(Store(s.store.now + ms, s.store.log), s.acc, id).1 == Some(c.record)
    requires conf.timeoutActivity > 0 && c.record.lastSeen.Some?
    requires s.store.now + ms >= 1000 * (c.record.lastSeen.value + 61)
    requires !Expired(conf, c.record, Seconds(s.store.now + ms))
    ensures Alive(conf, Step(conf, Step(conf, s, Pass(ms)).0, Retrieval(id)).0, id)
  {
    DueIsWrittenBack(conf, Step(conf, s, Pass(ms)).0, c, id);
  }

  lemma MemoryReturned(conf: Conf, s: System, id: Id)
    requires CanRefresh(conf, s.acc.memory, MEMORY_TTL, s.store.now, id)
    ensures Alive(conf, Run(conf, s, MemoryReturns(conf, s, id)), id)
  {
    var c := s.acc.memory[id];
    var t := FirstRefresh(c.record.lastSeen.value, s.store.now);
    RunThree(conf, s, Retrieval(id + "+"), Pass(t - s.store.now), Retrieval(id));
    OtherFirst(conf, s, id + "+", id);
    WaitThenAlive(conf, Retrieve(conf, s, id + "+").0, t - s.store.now, c, id);
  }

  lemma LocalReturned(conf: Conf, s: System, id: Id)
    requires s.acc.local.Some? && CanRefresh(conf, s.acc.local.value, s.acc.localTtl, s.store.now, id)
    ensures Alive(conf, Run(conf, s, LocalReturns(conf, s, id)), id)
  {
    var c := s.acc.local.value[id];
    var t := FirstRefresh(c.record.lastSeen.value, s.store.now);
    RunFour(conf, s, Retrieval(id + "+"), MemoryForgets(id), Pass(t - s.store.now), Retrieval(id));
    OtherFirst(conf, s, id + "+", id);
    var forgot := Step(conf, Retrieve(conf, s, id + "+").0, MemoryForgets(id)).0;
    WaitThenAlive(conf, forgot, t - s.store.now, c, id);
  }

  /** Whatever happens before the message and after it, but a rewriting, the session is never served after it. */
  ghost predicate LogoutHolds(conf: Conf, s: System, id: Id, m: Message, lower: nat) {
    forall before :: NoRewrite(before, lower, id) ==> EverRejects(conf, Process(Run(conf, s, before), m).0, lower, id)
  }

  lemma LogoutFails(conf: Conf, s: System, id: Id, m: Message, lower: nat, before: seq<Event>)
    requires id != "" && m in {UnlogMessage(id), DelSession(id)} && Seconds(s.store.now) > conf.timeout
    requires NoRewrite(before, lower, id) && Alive(conf, Run(conf, s, before), id)
    ensures !LogoutHolds(conf, s, id, m, lower)
  {
    RunEndedExactly(conf, s, before, id);
    MessageExactly(conf, Run(conf, s, before), id, m, lower);
  }

  /**
   * For every `timeoutActivity`: the logout holds exactly when, at the deletion, none of the handler's caches holds a
   * copy that it would still answer when it is due to be refreshed.
   */
  lemma LogoutExactly(conf: Conf, s: System, portal: Accessor, id: Id, m: Message, lower: nat)
    requires id != "" && m in {UnlogMessage(id), DelSession(id)} && Seconds(s.store.now) > conf.timeout
    ensures LogoutHolds(conf, Deleted(s, portal, id), id, m, lower) <==> !CanReturn(conf, s.acc, s.store.now, id)
  {
    var deleted := Deleted(s, portal, id);
    DeleteEnds(s.store, portal, id);
    if CanRefresh(conf, s.acc.memory, MEMORY_TTL, s.store.now, id) {
      MemoryReturned(conf, deleted, id);
      LogoutFails(conf, deleted, id, m, lower, MemoryReturns(conf, deleted, id));
    } else if CanReturn(conf, s.acc, s.store.now, id) {
      LocalReturned(conf, deleted, id);
      LogoutFails(conf, deleted, id, m, lower, LocalReturns(conf, deleted, id));
    } else {
      forall before | NoRewrite(before, lower, id)
        ensures EverRejects(conf, Process(Run(conf, deleted, before), m).0, lower, id)
      {
        NotReturned(conf, s, portal, id, before, lower);
        RunEndedExactly(conf, deleted, before, id);
        MessageExactly(conf, Run(conf, deleted, before), id, m, lower);
      }
    }
  }

  lemma NotReturned(conf: Conf, s: System, portal: Accessor, id: Id, before: seq<Event>, lower: nat)
    requires Seconds(s.store.now) > conf.timeout && !CanReturn(conf, s.acc, s.store.now, id) &&
             NoRewrite(before, lower, id)
    ensures !WrittenBack(conf, Deleted(s, portal, id), before, id)
    ensures !Revived(conf, Deleted(s, portal, id), before, id, false)
  {
    DeletedStillEnded(conf, s, portal, id);
    NeverWrittenBack(conf, Deleted(s, portal, id), before, s.acc, s.store.now, id, lower);
    NotRevived(conf, Deleted(s, portal, id), before, id, lower);
  }

  /** Without `timeoutActivity`, or with no copy in the caches, nothing can bring the session back. */
  lemma CannotReturn(conf: Conf, acc: Accessor, now: nat, id: Id)
    requires conf.timeoutActivity == 0 || (id !in acc.memory && (acc.local.Some? ==> id !in acc.local.value))
    ensures !CanReturn(conf, acc, now, id)
  {
  }

  // ---------------------------------------------------------------- without a message

  /** Every value of the session that was current later than `since` is absent or marked. */
  ghost predicate EndedSince(log: seq<Write>, id: Id, since: nat) {
    forall k :: 0 <= k <= |log| && (k < |log| ==> log[k].at > since) ==> Ended(Value(log[..k], id))
  }

  lemma CurrentEnded(log: seq<Write>, id: Id, r: Record, from: int, since: nat)
    requires EndedSince(log, id, since) && CurrentSince(log, id, r, from) && from > since
    ensures r.utime == 0
  {
    var k :| 0 <= k <= |log| && CurrentAfter(log, k, id, r, from);
    assert Ended(Value(log[..k], id));
  }

  lemma NotRecent(conf: Conf, store: Store, lower: nat, id: Id, r: Record, since: nat)
    requires EndedSince(store.log, id, since) && store.now - lower - 1000 * InternalTimeout(conf) > since
    requires Seconds(store.now) >= conf.timeout + InternalTimeout(conf)
    ensures !Recent(conf, store, lower, id, r)
  {
    var from := store.now - lower - 1000 * InternalTimeout(conf);
    if CurrentSince(store.log, id, r, from) {
      CurrentEnded(store.log, id, r, from, since);
    }
  }

  lemma DeletedEndedSince(store: Store, portal: Accessor, id: Id)
    requires Ordered(store)
    ensures EndedSince(Delete(store, portal, id).0.log, id, store.now) && Ordered(Delete(store, portal, id).0)
  {
    DeleteEnds(store, portal, id);
    var log := Delete(store, portal, id).0.log;
    assert log[..|log|] == log;
  }

  lemma WriteEndedSince(log: seq<Write>, w: Write, id: Id, since: nat)
    requires EndedSince(log, id, since) && (w.id == id ==> Ended(w.value))
    ensures EndedSince(log + [w], id, since)
  {
    assert log[..|log|] == log && (log + [w])[..|log| + 1] == log + [w] && (log + [w])[..|log|] == log;
    forall k | 0 <= k <= |log| + 1 && (k < |log| + 1 ==> (log + [w])[k].at > since)
      ensures Ended(Value((log + [w])[..k], id))
    {
      if k < |log| {
        assert (log + [w])[..k] == log[..k];
      }
    }
  }

  lemma {:induction false} RunEndedSince(conf: Conf, s: System, events: seq<Event>, lower: nat, id: Id, since: nat)
    requires EndedSince(s.store.log, id, since) && NoRewrite(events, lower, id) && !WrittenBack(conf, s, events, id)
    ensures EndedSince(Run(conf, s, events).store.log, id, since)
    decreases |events|
  {
    if |events| > 0 {
      StepEndedSince(conf, s, events[0], id, since);
      RunEndedSince(conf, Step(conf, s, events[0]).0, events[1..], lower, id, since);
    }
  }

  lemma StepEndedSince(conf: Conf, s: System, e: Event, id: Id, since: nat)
    requires EndedSince(s.store.log, id, since) && !Rewrites(e, id) && !WritesBack(conf, s, e, id)
    ensures EndedSince(Step(conf, s, e).0.store.log, id, since)
  {
    match e
    case OtherWrite(other, value) => WriteEndedSince(s.store.log, Write(s.store.now, other, value), id, since);
    case Retrieval(other) =>
      var got := Get(s.store, s.acc, other).1;
      if got.Some? {
        var seen := got.value.(lastSeen := Some(Seconds(s.store.now)));
        if other != id {
          WriteEndedSince(s.store.log, Write(s.store.now, other, Some(seen)), id, since);
        }
      }
    case _ =>
  }

  /** A deletion does not disturb the invariant. */
  lemma DeleteKeeps(conf: Conf, s: System, portal: Accessor, id: Id, lower: nat)
    requires Inv(conf, s, lower)
    ensures Inv(conf, s.(store := Delete(s.store, portal, id).0), lower)
  {
    var got := Get(s.store, portal, id).1;
    if got.Some? {
      WriteKeeps(conf, s, lower, id, Some(got.value.(utime := 0)));
    }
  }

  /** A run that does not write the session back. */
  ghost predicate Unrevived(conf: Conf, s: System, portal: Accessor, id: Id, events: seq<Event>, lower: nat) {
    NoRewrite(events, lower, id) && !WrittenBack(conf, Deleted(s, portal, id), events, id)
  }

  /**
   * Without any message, the caches alone stop answering when their times have passed since the deletion, unless the
   * session was written back.
   */
  lemma ExpiresUnaided(conf: Conf, s: System, portal: Accessor, id: Id, events: seq<Event>, lower: nat)
    requires Inv(conf, s, lower) && Unrevived(conf, s, portal, id, events, lower)
    ensures var reached := Run(conf, Deleted(s, portal, id), events);
            var own := if conf.handlerInternalCache == 0 then 15 else conf.handlerInternalCache;
            && reached.store.now - lower - 1000 * own > s.store.now
            && reached.store.now / 1000 >= conf.timeout + own ==>
              Retrieve(conf, reached, id).1 == None
  {
    DeleteKeeps(conf, s, portal, id, lower);
    RunKeeps(conf, Deleted(s, portal, id), events, lower);
    DeletedEndedSince(s.store, portal, id);
    RunEndedSince(conf, Deleted(s, portal, id), events, lower, id, s.store.now);
    RejectsAfter(conf, Run(conf, Deleted(s, portal, id), events), lower, id, s.store.now);
  }

  /** What the accessor answers is ended once the lower caches' times have passed. */
  lemma GotEnded(conf: Conf, s: System, lower: nat, id: Id, since: nat)
    requires Inv(conf, s, lower) && EndedSince(s.store.log, id, since) && s.store.now - lower > since
    ensures Ended(Get(s.store, s.acc, id).1)
  {
    GetFresh(conf, s, lower, id);
    var got := Get(s.store, s.acc, id).1;
    if got.Some? {
      CurrentEnded(s.store.log, id, got.value, s.store.now - lower, since);
    }
  }

  lemma RejectsAfter(conf: Conf, s: System, lower: nat, id: Id, since: nat)
    requires Inv(conf, s, lower) && EndedSince(s.store.log, id, since)
    ensures && s.store.now - lower - 1000 * InternalTimeout(conf) > since
            && Seconds(s.store.now) >= conf.timeout + InternalTimeout(conf) ==>
              Retrieve(conf, s, id).1 == None
  {
    if && s.store.now - lower - 1000 * InternalTimeout(conf) > since
       && Seconds(s.store.now) >= conf.timeout + InternalTimeout(conf)
    {
      GotEnded(conf, s, lower, id, since);
      ReturnedIsFresh(conf, s, lower, id);
      forall r: Record
        ensures !Recent(conf, s.store, lower, id, r)
      {
        NotRecent(conf, s.store, lower, id, r, since);
      }
    }
  }

  /** The converse: right after a write-back the session is served. */
  lemma WrittenBackIsServed(conf: Conf, s: System, id: Id)
    requires WritesBack(conf, s, Retrieval(id), id)
    ensures Retrieve(conf, Retrieve(conf, s, id).0, id).1.Some?
  {
  }

  // ---------------------------------------------------------------- a run that revives

  const REVIVING := Conf(1000, 500, 0)

  /** A handler with empty caches at 2000 seconds. */
  const BEGINNING := System(Store(2000000, []), Accessor(map[], None, 0), None)

  const LIVE := Record(1990, Some(1990), "")

  /** The session after its creation and one retrieval, its deletion by a portal, and a retrieval 61 seconds later. */
  function Kept(): System {
    Run(REVIVING, BEGINNING, [OtherWrite("a", Some(LIVE)), Retrieval("a")])
  }

  function Returned(): System {
    Run(REVIVING, Deleted(Kept(), Accessor(map[], None, 0), "a"), [Pass(61000), Retrieval("a")])
  }

  /**
   * With `timeoutActivity`, a run from empty caches on which the session is deleted, written back by the handler and
   * served after the message.
   */
  lemma RevivedByActivity()
    ensures Start(BEGINNING, MEMORY_TTL)
    ensures Ended(Value(Deleted(Kept(), Accessor(map[], None, 0), "a").store.log, "a"))
    ensures Retrieve(REVIVING, Process(Returned(), UnlogMessage("a")).0, "a").1 == Some(LIVE.(lastSeen := Some(2061)))
  {
    KeptState();
    ReturnedState();
  }

  lemma KeptState()
    ensures Kept() == System(Store(2000000, [Write(2000000, "a", Some(LIVE))]),
                             Accessor(map["a" := Cached(LIVE, 2000000)], None, 0), Some(Last("a", LIVE, 2000)))
  {
    RunTwo(REVIVING, BEGINNING, OtherWrite("a", Some(LIVE)), Retrieval("a"));
  }

  lemma ReturnedState()
    ensures Value(Returned().store.log, "a") == Some(LIVE.(lastSeen := Some(2061))) && Returned().store.now == 2061000
  {
    KeptState();
    RunTwo(REVIVING, Deleted(Kept(), Accessor(map[], None, 0), "a"), Pass(61000), Retrieval("a"));
  }
}
