/**
 * Whole runs of one handler (packages/handler/src/handlerMain.ts), with other writers, other clients of the backend and
 * caches that forget.
 */
module SessionRuns {
  import opened Wrappers
  import opened SessionSpec

  datatype Event =
    | Pass(ms: nat)
    | OtherWrite(id: Id, value: Option<Record>)
    | MemoryForgets(id: Id)
    | LocalForgets(id: Id)
    | Retrieval(id: Id)
    | Received(message: Message)
    | LocalUnlog(id: Id)

  function Step(conf: Conf, s: System, e: Event): (System, Option<Record>) {
    match e
    case Pass(ms) => (s.(store := Store(s.store.now + ms, s.store.log)), None)
    case OtherWrite(id, value) => (s.(store := Written(s.store, id, value)), None)
    case MemoryForgets(id) => (s.(acc := s.acc.(memory := s.acc.memory - {id})), None)
    case LocalForgets(id) =>
      (if s.acc.local.Some? then s.(acc := s.acc.(local := Some(s.acc.local.value - {id}))) else s, None)
    case Retrieval(id) => Retrieve(conf, s, id)
    case Received(m) => (Process(s, m).0, None)
    case LocalUnlog(id) => (Unlog(s, id), None)
  }

  function Run(conf: Conf, s: System, events: seq<Event>): System
    decreases |events|
  {
    if |events| == 0 then s else Run(conf, Step(conf, s, events[0]).0, events[1..])
  }

  /** A new accessor starts with empty caches. */
  predicate Empty(acc: Accessor) {
    acc.memory == map[] && (acc.local.Some? ==> acc.local.value == map[])
  }

  /** No accessor keeps entries longer than `lower` milliseconds; a reload brings an empty one. */
  predicate Allowed(e: Event, lower: nat) {
    e.Received? && e.message.Reload? && e.message.acc.Some? ==>
      Empty(e.message.acc.value) && (e.message.acc.value.local.Some? ==> e.message.acc.value.localTtl <= lower)
  }

  // ---------------------------------------------------------------- freshness

  predicate Ordered(store: Store) {
    && (forall i, j :: 0 <= i < j < |store.log| ==> store.log[i].at <= store.log[j].at)
    && (forall i :: 0 <= i < |store.log| ==> store.log[i].at <= store.now)
  }

  /** The backend's value was that record at a moment no earlier than `since`. */
  ghost predicate CurrentSince(log: seq<Write>, id: Id, r: Record, since: int) {
    exists k :: 0 <= k <= |log| && CurrentAfter(log, k, id, r, since)
  }

  /** The record was the value after `k` writes, and the next write was no earlier than `since`. */
  ghost predicate CurrentAfter(log: seq<Write>, k: nat, id: Id, r: Record, since: int)
    requires k <= |log|
  {
    Value(log[..k], id) == Some(r) && (k < |log| ==> log[k].at >= since)
  }

  ghost predicate FreshCache(store: Store, cache: map<Id, Cached>) {
    forall id :: id in cache ==>
      cache[id].at <= store.now && CurrentSince(store.log, id, cache[id].record, cache[id].at)
  }

  ghost predicate FreshLast(conf: Conf, store: Store, last: Last, lower: nat) {
    && last.time <= Seconds(store.now)
    && CurrentSince(store.log, last.id, last.record, 1000 * last.time - lower)
    && last.time - last.record.utime <= conf.timeout
  }

  ghost predicate Inv(conf: Conf, s: System, lower: nat) {
    && lower >= MEMORY_TTL
    && Ordered(s.store)
    && FreshCache(s.store, s.acc.memory)
    && (s.acc.local.Some? ==> s.acc.localTtl <= lower && FreshCache(s.store, s.acc.local.value))
    && (s.last.Some? ==> FreshLast(conf, s.store, s.last.value, lower))
  }

  lemma ValueNow(log: seq<Write>, id: Id, r: Record, since: int)
    requires Value(log, id) == Some(r)
    ensures CurrentSince(log, id, r, since)
  {
    assert log[..|log|] == log;
    assert CurrentAfter(log, |log|, id, r, since);
  }

  lemma Weaken(log: seq<Write>, id: Id, r: Record, since: int, earlier: int)
    requires CurrentSince(log, id, r, since) && earlier <= since
    ensures CurrentSince(log, id, r, earlier)
  {
    var k :| 0 <= k <= |log| && CurrentAfter(log, k, id, r, since);
    assert CurrentAfter(log, k, id, r, earlier);
  }

  /** A write does not change what was current before it. */
  lemma Appended(log: seq<Write>, w: Write, id: Id, r: Record, since: int)
    requires CurrentSince(log, id, r, since) && w.at >= since
    ensures CurrentSince(log + [w], id, r, since)
  {
    var k :| 0 <= k <= |log| && CurrentAfter(log, k, id, r, since);
    assert (log + [w])[..k] == log[..k];
    assert CurrentAfter(log + [w], k, id, r, since);
  }

  lemma CacheAppended(store: Store, cache: map<Id, Cached>, id: Id, value: Option<Record>)
    requires FreshCache(store, cache)
    ensures FreshCache(Written(store, id, value), cache)
  {
    forall other | other in cache
      ensures CurrentSince(Written(store, id, value).log, other, cache[other].record, cache[other].at)
    {
      Appended(store.log, Write(store.now, id, value), other, cache[other].record, cache[other].at);
    }
  }

  lemma WriteKeeps(conf: Conf, s: System, lower: nat, id: Id, value: Option<Record>)
    requires Inv(conf, s, lower)
    ensures Inv(conf, s.(store := Written(s.store, id, value)), lower)
  {
    CacheAppended(s.store, s.acc.memory, id, value);
    if s.acc.local.Some? {
      CacheAppended(s.store, s.acc.local.value, id, value);
    }
    if s.last.Some? {
      var l := s.last.value;
      Appended(s.store.log, Write(s.store.now, id, value), l.id, l.record, 1000 * l.time - lower);
    }
  }

  lemma PutKeeps(conf: Conf, s: System, lower: nat, id: Id, r: Record)
    requires Inv(conf, s, lower) && Value(s.store.log, id) == Some(r)
    ensures Inv(conf, s.(acc := Put(s.acc, id, r, s.store.now)), lower)
  {
    ValueNow(s.store.log, id, r, s.store.now);
  }

  /** What the accessor returns was current at most `lower` milliseconds ago. */
  lemma GetFresh(conf: Conf, s: System, lower: nat, id: Id)
    requires Inv(conf, s, lower)
    ensures var (acc, got) := Get(s.store, s.acc, id);
            && Inv(conf, s.(acc := acc), lower)
            && (got.Some? ==> CurrentSince(s.store.log, id, got.value, s.store.now - lower))
  {
    var now := s.store.now;
    if Hit(s.acc.memory, id, MEMORY_TTL, now) {
      Weaken(s.store.log, id, s.acc.memory[id].record, s.acc.memory[id].at, now - lower);
    } else if s.acc.local.Some? && Hit(s.acc.local.value, id, s.acc.localTtl, now) {
      Weaken(s.store.log, id, s.acc.local.value[id].record, s.acc.local.value[id].at, now - lower);
    } else if Value(s.store.log, id).Some? {
      PutKeeps(conf, s, lower, id, Value(s.store.log, id).value);
      ValueNow(s.store.log, id, Value(s.store.log, id).value, now - lower);
    }
  }

  lemma SecondsBound(ms: nat)
    ensures 1000 * Seconds(ms) <= ms < 1000 * Seconds(ms) + 1000
  {
  }

  /** Keeping the record just obtained. */
  lemma LastKeeps(conf: Conf, s: System, lower: nat, id: Id, r: Record)
    requires Inv(conf, s.(last := None), lower) && CurrentSince(s.store.log, id, r, s.store.now - lower)
    requires Seconds(s.store.now) - r.utime <= conf.timeout
    ensures Inv(conf, s.(last := Some(Last(id, r, Seconds(s.store.now)))), lower)
  {
    SecondsBound(s.store.now);
    Weaken(s.store.log, id, r, s.store.now - lower, 1000 * Seconds(s.store.now) - lower);
  }

  /** The branch that writes a new `_lastSeen`. */
  lemma RefreshKeeps(conf: Conf, s: System, lower: nat, id: Id, seen: Record)
    requires Inv(conf, s, lower) && Seconds(s.store.now) - seen.utime <= conf.timeout
    ensures Inv(conf, System(Written(s.store, id, Some(seen)), Put(s.acc, id, seen, s.store.now),
                             Some(Last(id, seen, Seconds(s.store.now)))), lower)
  {
    var s1 := s.(store := Written(s.store, id, Some(seen)));
    WriteKeeps(conf, s, lower, id, Some(seen));
    PutKeeps(conf, s1, lower, id, seen);
    var s2 := s1.(acc := Put(s1.acc, id, seen, s1.store.now));
    ValueNow(s1.store.log, id, seen, s1.store.now - lower);
    LastKeeps(conf, s2, lower, id, seen);
  }

  lemma RetrieveKeeps(conf: Conf, s: System, lower: nat, id: Id)
    requires Inv(conf, s, lower)
    ensures Inv(conf, Retrieve(conf, s, id).0, lower)
  {
    if !InternalHit(conf, s, id) {
      GetFresh(conf, s, lower, id);
      var (acc, got) := Get(s.store, s.acc, id);
      var s1 := s.(acc := acc);
      if got.Some? && !Expired(conf, got.value, Seconds(s.store.now)) {
        if Refreshed(conf, got.value, Seconds(s.store.now)) {
          RefreshKeeps(conf, s1, lower, id, got.value.(lastSeen := Some(Seconds(s.store.now))));
        } else {
          LastKeeps(conf, s1, lower, id, got.value);
        }
      }
    }
  }

  lemma StepKeeps(conf: Conf, s: System, e: Event, lower: nat)
    requires Inv(conf, s, lower) && Allowed(e, lower)
    ensures Inv(conf, Step(conf, s, e).0, lower)
  {
    match e
    case Pass(ms) =>
      SecondsBound(s.store.now);
      SecondsBound(s.store.now + ms);
    case OtherWrite(id, value) => WriteKeeps(conf, s, lower, id, value);
    case MemoryForgets(id) =>
    case LocalForgets(id) =>
    case Retrieval(id) => RetrieveKeeps(conf, s, lower, id);
    case Received(m) =>
    case LocalUnlog(id) =>
  }

  lemma {:induction false} RunKeeps(conf: Conf, s: System, events: seq<Event>, lower: nat)
    requires Inv(conf, s, lower) && forall i :: 0 <= i < |events| ==> Allowed(events[i], lower)
    ensures Inv(conf, Run(conf, s, events), lower)
    decreases |events|
  {
    if |events| > 0 {
      StepKeeps(conf, s, events[0], lower);
      RunKeeps(conf, Step(conf, s, events[0]).0, events[1..], lower);
    }
  }

  /** The start: nothing cached, any contents of the backend. */
  predicate Start(s: System, lower: nat) {
    Ordered(s.store) && Empty(s.acc) && s.last == None && (s.acc.local.Some? ==> s.acc.localTtl <= lower)
  }

  /** The backend's value within the time to live of the lower caches and the handler's timeout, and hardly expired. */
  ghost predicate Recent(conf: Conf, store: Store, lower: nat, id: Id, r: Record) {
    var own := if conf.handlerInternalCache == 0 then 15 else conf.handlerInternalCache;
    && CurrentSince(store.log, id, r, store.now - lower - 1000 * own)
    && store.now / 1000 - r.utime <= conf.timeout + own - 1
  }

  lemma RecentFrom(conf: Conf, store: Store, lower: nat, id: Id, r: Record, since: int)
    requires CurrentSince(store.log, id, r, since) && since >= store.now - lower - 1000 * InternalTimeout(conf)
    requires Seconds(store.now) - r.utime <= conf.timeout + InternalTimeout(conf) - 1
    ensures Recent(conf, store, lower, id, r)
  {
    Weaken(store.log, id, r, since, store.now - lower - 1000 * InternalTimeout(conf));
  }

  lemma ReturnedIsFresh(conf: Conf, s: System, lower: nat, id: Id)
    requires Inv(conf, s, lower)
    ensures var (after, got) := Retrieve(conf, s, id);
            got.Some? ==> Recent(conf, after.store, lower, id, got.value)
  {
    var now := Seconds(s.store.now);
    SecondsBound(s.store.now);
    if InternalHit(conf, s, id) {
      var l := s.last.value;
      RecentFrom(conf, s.store, lower, id, l.record, 1000 * l.time - lower);
    } else {
      GetFresh(conf, s, lower, id);
      var (acc, got) := Get(s.store, s.acc, id);
      if got.Some? && !Expired(conf, got.value, now) {
        if Refreshed(conf, got.value, now) {
          var seen := got.value.(lastSeen := Some(now));
          ValueNow(Written(s.store, id, Some(seen)).log, id, seen, s.store.now);
          RecentFrom(conf, Written(s.store, id, Some(seen)), lower, id, seen, s.store.now);
        } else {
          RecentFrom(conf, s.store, lower, id, got.value, s.store.now - lower);
        }
      }
    }
  }

  lemma StartInv(conf: Conf, s: System, lower: nat)
    requires Start(s, lower) && lower >= MEMORY_TTL
    ensures Inv(conf, s, lower)
  {
  }

  /** After any run, every session returned is recent. */
  lemma Freshness(conf: Conf, s: System, events: seq<Event>, lower: nat, id: Id)
    requires Start(s, lower) && lower >= 120000 && forall i :: 0 <= i < |events| ==> Allowed(events[i], lower)
    ensures var (after, got) := Retrieve(conf, Run(conf, s, events), id);
            got.Some? ==> Recent(conf, after.store, lower, id, got.value)
  {
    StartInv(conf, s, lower);
    RunKeeps(conf, s, events, lower);
    ReturnedIsFresh(conf, Run(conf, s, events), lower, id);
  }

  // ---------------------------------------------------------------- what a retrieval decides

  /**
   * The accessor answers from memory for two minutes, then from the local cache for its time, then from the backend,
   * and puts only the backend's answer in its caches.
   */
  lemma GetExactly(store: Store, acc: Accessor, id: Id)
    ensures var (after, got) := Get(store, acc, id);
            var inMemory := id in acc.memory && store.now <= acc.memory[id].at + 120000;
            var inLocal := && acc.local.Some? && id in acc.local.value
                           && store.now <= acc.local.value[id].at + acc.localTtl;
            && (inMemory ==> got == Some(acc.memory[id].record))
            && (!inMemory && inLocal ==> got == Some(acc.local.value[id].record))
            && (!inMemory && !inLocal ==> got == Value(store.log, id))
            && (inMemory || inLocal || got.None? ==> after == acc)
            && (!inMemory && !inLocal && got.Some? ==>
                  && after.memory == acc.memory[id := Cached(got.value, store.now)] && after.localTtl == acc.localTtl
                  && (acc.local.None? ==> after.local.None?)
                  && (acc.local.Some? ==>
                        after.local == Some(acc.local.value[id := Cached(got.value, store.now)])))
  {
  }

  /** The handler's own cache answers for 15 seconds unless configured otherwise; then the handler asks nobody and
      changes nothing. */
  lemma OwnAnswer(conf: Conf, s: System, id: Id)
    ensures if && s.last.Some? && s.last.value.id == id
               && s.store.now / 1000 - s.last.value.time < (if conf.handlerInternalCache == 0 then 15
                                                            else conf.handlerInternalCache)
            then Retrieve(conf, s, id) == (s, Some(s.last.value.record))
            else
              var (acc, got) := Get(s.store, s.acc, id);
              Retrieve(conf, s, id) == Fetched(conf, s.store, acc, got, id)
  {
  }

  /**
   * What the accessor does not have is rejected, and so is exactly what has lived or, when seen before, been idle for
   * too long; then the handler keeps nothing. What it returns it keeps, and when it was last seen more than a minute
   * ago it marks it as seen now and writes it back.
   */
  lemma FetchedExactly(conf: Conf, store: Store, acc: Accessor, got: Option<Record>, id: Id)
    ensures var (after, answer) := Fetched(conf, store, acc, got, id);
            var now := store.now / 1000;
            && (answer.None? <==>
                  || got.None? || now - got.value.utime > conf.timeout
                  || (conf.timeoutActivity > 0 && got.value.lastSeen.Some? && got.value.lastSeen.value != 0 &&
                      now - got.value.lastSeen.value > conf.timeoutActivity))
            && (answer.None? ==> after == System(store, acc, None))
            && (answer.Some? ==> after.last == Some(Last(id, answer.value, now)))
    ensures var (after, answer) := Fetched(conf, store, acc, got, id);
            var now := store.now / 1000;
            answer.Some? ==>
              if conf.timeoutActivity > 0 && got.value.lastSeen.Some? && now - got.value.lastSeen.value > 60
              then
                && answer == Some(Record(got.value.utime, Some(now), got.value.content))
                && after.store == Store(store.now, store.log + [Write(store.now, id, answer)])
                && after.acc.memory == acc.memory[id := Cached(answer.value, store.now)]
                && (acc.local.Some? ==> after.acc.local == Some(acc.local.value[id := Cached(answer.value, store.now)]))
              else answer == got && after.store == store && after.acc == acc
  {
  }

  /** A session in the backend, none of whose recent values is expired, is returned. */
  lemma LiveIsReturned(conf: Conf, s: System, lower: nat, id: Id)
    requires Inv(conf, s, lower) && Value(s.store.log, id).Some?
    requires forall r {:trigger CurrentSince(s.store.log, id, r, s.store.now - lower)} ::
               CurrentSince(s.store.log, id, r, s.store.now - lower) ==>
                 && s.store.now / 1000 - r.utime <= conf.timeout
                 && (conf.timeoutActivity > 0 && r.lastSeen.Some? && r.lastSeen.value != 0 ==>
                       s.store.now / 1000 - r.lastSeen.value <= conf.timeoutActivity)
    ensures Retrieve(conf, s, id).1.Some?
  {
    GetFresh(conf, s, lower, id);
    assert Get(s.store, s.acc, id).1.Some?;
  }

  /**
   * A session all of whose recent values are expired, since their start or since they were last seen, is rejected and
   * not written back, unless the handler's own cache answers.
   */
  lemma ExpiredIsRejected(conf: Conf, s: System, lower: nat, id: Id)
    requires Inv(conf, s, lower)
    requires s.last.Some? && s.last.value.id == id ==>
               s.store.now / 1000 - s.last.value.time >= if conf.handlerInternalCache == 0 then 15
                                                         else conf.handlerInternalCache
    requires forall r {:trigger CurrentSince(s.store.log, id, r, s.store.now - lower)} ::
               CurrentSince(s.store.log, id, r, s.store.now - lower) ==>
                 || s.store.now / 1000 - r.utime > conf.timeout
                 || (conf.timeoutActivity > 0 && r.lastSeen.Some? && r.lastSeen.value != 0 &&
                     s.store.now / 1000 - r.lastSeen.value > conf.timeoutActivity)
    ensures var (after, answer) := Retrieve(conf, s, id);
            answer == None && after.store == s.store && after.last == None
  {
    GetFresh(conf, s, lower, id);
    OwnAnswer(conf, s, id);
    var (acc, got) := Get(s.store, s.acc, id);
    FetchedExactly(conf, s.store, acc, got, id);
  }
}
