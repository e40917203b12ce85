/**
 * The LDAP connection manager (packages/lib-ldap/src/ldap-connection.ts): circuit breaker, failover over
 * the configured servers, reconnection and retry with exponential backoff.
 *
 * The network and the clock are an object whose methods answer arbitrarily and let arbitrary time pass;
 * it also keeps the ghost log against which the bounds are stated.
 */
module LdapConnection {
  import opened Wrappers
  import opened Numbers

  datatype Url = Url(host: string, port: nat, useTLS: bool, useStartTLS: bool)

  datatype CircuitState = Closed | Open | HalfOpen

  datatype OperationOutcome = Done | ConnectionError | OtherError

  datatype RetryResult = Returned | Unavailable | Thrown

  /** How the bind of a user ended; `policyCode` is the mapped password-policy code, empty without one. */
  datatype BindReply =
    | Accepted(policyCode: string)
    | PolicyError(policyCode: string)
    | InvalidCredentials
    | ConnectionLost
    | OtherBindError
    | NotCreated

  datatype BindResult = BindResult(success: bool, errorCode: string)

  const UNAVAILABLE := BindResult(false, "PE_LDAPCONNECTFAILED")

  const FAILURE_THRESHOLD: nat := 3
  const RESET_TIMEOUT: nat := 30000
  const MAX_RETRIES: nat := 3
  const BASE_RETRY_DELAY: nat := 100
  const MAX_RETRY_DELAY: nat := 5000
  const HEALTH_CHECK_INTERVAL: nat := 30000

  function Backoff(attempt: nat): nat {
    var delay := BASE_RETRY_DELAY * Pow2(attempt);
    if delay < MAX_RETRY_DELAY then delay else MAX_RETRY_DELAY
  }

  /** The delay after a failed round of `reconnect`; there is none after the last. */
  ghost function DelayAfter(attempt: nat): (delay: nat)
    ensures delay == if attempt == 0 then 100 else if attempt == 1 then 200 else 0
  {
    assert Pow2(0) == 1 && Pow2(1) == 2;
    if attempt < MAX_RETRIES - 1 then Backoff(attempt) else 0
  }

  /** The delays after the first connection errors: 100 ms, 200 ms and 400 ms. */
  ghost function Waited(errors: int): (total: nat)
  {
    if errors <= 0 then 0 else if errors == 1 then 100 else if errors == 2 then 300 else 700
  }

  lemma WaitedNext(errors: nat)
    ensures errors < 3 ==> Waited(errors + 1) == Waited(errors) + Backoff(errors)
  {
    assert Pow2(0) == 1 && Pow2(1) == 2 && Pow2(2) == 4;
  }

  // ---------------------------------------------------------------- failover order

  /** The servers in the order one round of `connect` tries them. */
  function Rotation(start: nat, n: nat): (order: seq<nat>)
    ensures |order| == n
  {
    seq(n, i requires 0 <= i < n => (start + i) % n)
  }

  /** Whole rounds, one after the other. */
  function Rounds(order: seq<nat>, rounds: nat): (tried: seq<nat>)
    ensures |tried| == rounds * |order|
  {
    if rounds == 0 then [] else Rounds(order, rounds - 1) + order
  }

  lemma RoundsNext(before: seq<nat>, order: seq<nat>, rounds: nat)
    ensures before + Rounds(order, rounds) + order == before + Rounds(order, rounds + 1)
    ensures before + Rounds(order, rounds) + [] == before + Rounds(order, rounds)
  {
  }

  /** A full round tries every server, and none twice. */
  lemma RotationTriesEachOnce(start: nat, n: nat)
    requires start < n
    ensures forall u :: 0 <= u < n ==> u in Rotation(start, n)
    ensures forall i, j :: 0 <= i < j < n ==> Rotation(start, n)[i] != Rotation(start, n)[j]
  {
    var order := Rotation(start, n);
    forall i | 0 <= i < n
      ensures order[i] == if start + i < n then start + i else start + i - n
    {
      Wrap(start + i, n);
    }
    forall u | 0 <= u < n
      ensures u in order
    {
      assert order[if start <= u then u - start else u + n - start] == u;
    }
  }

  lemma Wrap(x: nat, n: nat)
    requires n <= x < 2 * n || x < n
    ensures x % n == if x < n then x else x - n
  {
    if x >= n {
      assert x == 1 * n + (x - n);
    }
  }

  // ---------------------------------------------------------------- spacing of failures

  /** The times of the failures since the last success: in order, and from the fourth on each at least
      one reset timeout after the one before. */
  ghost predicate Spaced(times: seq<int>) {
    forall i, j :: 0 <= i < j < |times| ==>
      times[i] <= times[j] && (3 <= j ==> times[i] + 30000 <= times[j])
  }

  lemma {:induction false} LaterFailuresSpread(times: seq<int>, j: nat)
    requires Spaced(times) && FAILURE_THRESHOLD - 1 <= j < |times|
    ensures times[j] - times[FAILURE_THRESHOLD - 1] >= RESET_TIMEOUT * (j - (FAILURE_THRESHOLD - 1))
  {
    if j >= FAILURE_THRESHOLD {
      LaterFailuresSpread(times, j - 1);
    }
  }

  /** However the failures fall, a span of `span` ms holds at most 3 of them plus one per reset timeout. */
  lemma FailuresInSpan(times: seq<int>, i: nat, j: nat, span: nat)
    requires Spaced(times) && i <= j < |times| && times[j] - times[i] <= span
    ensures j - i + 1 <= 3 + span / 30000
  {
    if j >= FAILURE_THRESHOLD {
      if i < FAILURE_THRESHOLD {
        LaterFailuresSpread(times, j);
        assert times[i] <= times[FAILURE_THRESHOLD - 1];
        assert RESET_TIMEOUT * (j - 2) <= span;
      } else {
        SpreadBetween(times, i, j);
      }
    }
  }

  lemma {:induction false} SpreadBetween(times: seq<int>, i: nat, j: nat)
    requires Spaced(times) && FAILURE_THRESHOLD <= i <= j < |times|
    ensures times[j] - times[i] >= RESET_TIMEOUT * (j - i)
  {
    if i < j {
      SpreadBetween(times, i, j - 1);
    }
  }

  lemma AttemptsBound(rounds: nat, tries: nat, n: nat, ok: bool)
    requires rounds <= MAX_RETRIES && tries <= n && (ok ==> rounds < MAX_RETRIES) && (!ok ==> tries == 0)
    ensures rounds * n + tries <= MAX_RETRIES * n
  {
    assert rounds == 0 || rounds == 1 || rounds == 2 || rounds == 3;
  }

  // ---------------------------------------------------------------- environment

  /** The servers and the clock.  Nothing is known of the answers; time never runs backwards. */
  class Network {
    var now: int
    ghost var attempts: seq<nat>
    ghost var slept: nat
    ghost var outcomes: seq<OperationOutcome>
    ghost var checks: nat
    ghost var upgrades: nat

    constructor ()
      ensures attempts == [] && slept == 0 && outcomes == [] && checks == 0 && upgrades == 0
    {
      now := 0;
      attempts, slept, outcomes, checks, upgrades := [], 0, [], 0, 0;
    }

    method Elapse()
      modifies `now
      ensures now >= old(now)
    {
      var later :| later >= now;
      now := later;
    }

    /** The root DSE search that tests a new client. */
    method Probe(server: nat) returns (ok: bool)
      modifies `now, `attempts
      ensures now >= old(now) && attempts == old(attempts) + [server]
    {
      Elapse();
      attempts := attempts + [server];
      ok := *;
    }

    method StartTls() returns (ok: bool)
      modifies `now, `upgrades
      ensures now >= old(now) && upgrades == old(upgrades) + 1
    {
      Elapse();
      upgrades := upgrades + 1;
      ok := *;
    }

    /** The same search on a client that is already connected. */
    method HealthCheck() returns (ok: bool)
      modifies `now, `checks
      ensures now >= old(now) && checks == old(checks) + 1
    {
      Elapse();
      checks := checks + 1;
      ok := *;
    }

    method Bind() returns (reply: BindReply)
      modifies `now
      ensures now >= old(now)
    {
      Elapse();
      reply := *;
    }

    /** One run of the operation handed to `withRetry`. */
    method Operate() returns (outcome: OperationOutcome)
      modifies `now, `outcomes
      ensures now >= old(now) && outcomes == old(outcomes) + [outcome]
    {
      Elapse();
      outcome := *;
      outcomes := outcomes + [outcome];
    }

    method Sleep(ms: nat)
      modifies `now, `slept
      ensures now >= old(now) + ms && slept == old(slept) + ms
    {
      Elapse();
      now := now + ms;
      slept := slept + ms;
    }
  }

  // ---------------------------------------------------------------- connection manager

  class Connection {
    const urls: seq<Url>
    const net: Network

    var client: Option<nat>
    var connected: bool
    var currentUrlIndex: nat
    var circuitState: CircuitState
    var failureCount: nat
    var lastFailureTime: int
    var lastHealthCheck: int

    /** The times of the failures recorded since the last success or manual reset. */
    ghost var failures: seq<int>

    /** The breaker is closed exactly below the threshold, and its history is spaced out. */
    ghost predicate Valid()
      reads this, net
    {
      && (if |urls| == 0 then currentUrlIndex == 0 else currentUrlIndex < |urls|)
      && (connected ==> client.Some?)
      && (circuitState == Closed <==> failureCount < 3)
      && failureCount == |failures|
      && Spaced(failures)
      && (failureCount > 0 ==> lastFailureTime == failures[failureCount - 1] && lastFailureTime <= net.now)
      && (circuitState == HalfOpen ==> net.now - lastFailureTime >= RESET_TIMEOUT)
    }

    /** A client exists and its connection is believed to work. */
    predicate Ready()
      reads this
    {
      connected && client.Some?
    }

    /** The breaker lets a connection through at this moment. */
    predicate Permits()
      reads this, net
    {
      circuitState != Open || net.now - lastFailureTime >= RESET_TIMEOUT
    }

    constructor (urls: seq<Url>, net: Network)
      ensures Valid() && this.urls == urls && this.net == net
      ensures circuitState == Closed && failures == [] && !connected
    {
      this.urls, this.net := urls, net;
      client, connected, currentUrlIndex := None, false, 0;
      circuitState, failureCount, lastFailureTime, lastHealthCheck := Closed, 0, 0, 0;
      failures := [];
    }

    method CanAttemptConnection() returns (allowed: bool)
      requires Valid()
      modifies `circuitState
      ensures Valid() && allowed == old(Permits())
      ensures allowed <==> old(circuitState) != Open || net.now - lastFailureTime >= 30000
      ensures circuitState == if old(circuitState) == Open && allowed then HalfOpen else old(circuitState)
    {
      if circuitState == Closed {
        return true;
      }
      if circuitState == Open {
        if net.now - lastFailureTime >= RESET_TIMEOUT {
          circuitState := HalfOpen;
          return true;
        }
        return false;
      }
      return true;
    }

    method OnConnectionSuccess()
      requires Valid()
      modifies `circuitState, `failureCount, `failures
      ensures Valid() && circuitState == Closed && failures == []
    {
      failureCount := 0;
      circuitState := Closed;
      failures := [];
    }

    /** Only an attempt the breaker let through can fail. */
    method OnConnectionFailure()
      requires Valid() && circuitState != Open
      modifies `circuitState, `failureCount, `lastFailureTime, `failures
      ensures Valid() && failures == old(failures) + [net.now]
      ensures circuitState == if |failures| >= 3 then Open else old(circuitState)
    {
      failureCount := failureCount + 1;
      lastFailureTime := net.now;
      failures := failures + [net.now];
      if failureCount >= FAILURE_THRESHOLD {
        circuitState := Open;
      }
    }

    method ConnectToServer(server: nat) returns (ok: bool)
      requires Valid() && server < |urls|
      modifies `client, `connected, net`now, net`attempts, net`upgrades
      ensures Valid() && ok == Ready() && (ok ==> client == Some(server))
      ensures net.now >= old(net.now) && net.attempts == old(net.attempts) + [server]
      ensures var upgrade := urls[server].useStartTLS && !urls[server].useTLS;
              && (ok && upgrade ==> net.upgrades == old(net.upgrades) + 1)
              && (!upgrade ==> net.upgrades == old(net.upgrades))
    {
      client := Some(server);
      ok := net.Probe(server);
      if ok {
        connected := true;
        if urls[server].useStartTLS && !urls[server].useTLS {
          ok := net.StartTls();
        }
      }
      if !ok {
        client := None;
        connected := false;
      }
    }

    /**
     * `connect`: a blocked call touches nothing; a round that fails has tried every server in rotated
     * order and counts as one failure; a successful one stops at the first server that answers.
     */
    method Connect() returns (ok: bool, ghost tries: nat)
      requires Valid()
      modifies this, net`now, net`attempts, net`upgrades
      ensures Valid() && net.now >= old(net.now)
      ensures tries <= |urls| && net.attempts == old(net.attempts) + Rotation(old(currentUrlIndex), |urls|)[..tries]
      ensures ok ==> old(Permits()) && Ready() && circuitState == Closed && failures == [] &&
                     tries > 0 && currentUrlIndex == Rotation(old(currentUrlIndex), |urls|)[tries - 1]
      ensures !ok ==> currentUrlIndex == old(currentUrlIndex) && (!old(Ready()) ==> !Ready())
      ensures lastHealthCheck == old(lastHealthCheck)
      ensures !ok && !old(Permits()) ==> tries == 0 && failures == old(failures) && circuitState == old(circuitState)
      ensures !ok && old(Permits()) ==> tries == |urls| && failures == old(failures) + [net.now]
      ensures !ok ==>
                net.attempts ==
                old(net.attempts) + (if old(Permits()) then Rotation(old(currentUrlIndex), |urls|) else [])
    {
      ok, tries := false, 0;
      var allowed := CanAttemptConnection();
      if !allowed {
        return;
      }
      ghost var order := Rotation(currentUrlIndex, |urls|);
      for i := 0 to |urls|
        invariant Valid() && net.now >= old(net.now)
        invariant circuitState != Open && failures == old(failures)
        invariant currentUrlIndex == old(currentUrlIndex) && (!old(Ready()) ==> !Ready())
        invariant tries == i && net.attempts == old(net.attempts) + order[..i]
        invariant lastHealthCheck == old(lastHealthCheck)
      {
        var urlIndex := (currentUrlIndex + i) % |urls|;
        assert order[..i + 1] == order[..i] + [urlIndex];
        ok := ConnectToServer(urlIndex);
        tries := i + 1;
        if ok {
          currentUrlIndex := urlIndex;
          OnConnectionSuccess();
          return;
        }
      }
      OnConnectionFailure();
      ok := false;
    }

    /**
     * The body of the loop of `reconnect`: a round when the breaker lets it through, then a delay unless it is the
     * last.
     */
    method Retry(attempt: nat) returns (ok: bool, ghost tries: nat)
      requires Valid() && !Ready() && attempt < MAX_RETRIES
      modifies this, net`now, net`attempts, net`slept, net`upgrades
      ensures Valid() && net.now >= old(net.now) && ok == Ready() && tries <= |urls|
      ensures ok ==> old(Permits()) && tries > 0 && circuitState == Closed && failures == [] &&
                     net.slept == old(net.slept) &&
                     net.attempts == old(net.attempts) + Rotation(old(currentUrlIndex), |urls|)[..tries] &&
                     currentUrlIndex == Rotation(old(currentUrlIndex), |urls|)[tries - 1]
      ensures !ok ==> currentUrlIndex == old(currentUrlIndex) && circuitState != HalfOpen &&
                      old(failures) <= failures &&
                      net.attempts == old(net.attempts) +
                      (if old(Permits()) then Rotation(currentUrlIndex, |urls|) else []) &&
                      |failures| == |old(failures)| + (if old(Permits()) then 1 else 0) &&
                      net.slept == old(net.slept) + DelayAfter(attempt)
      ensures lastHealthCheck == old(lastHealthCheck)
    {
      ok, tries := Connect();
      if !ok && attempt < MAX_RETRIES - 1 {
        net.Sleep(Backoff(attempt));
      }
    }

    /** The loop of `reconnect` */
    method RetryRounds() returns (ok: bool, ghost rounds: nat, ghost tries: nat)
      requires Valid() && !Ready()
      modifies this, net`now, net`attempts, net`slept, net`upgrades
      ensures Valid() && net.now >= old(net.now)
      ensures ok == Ready() && rounds <= MAX_RETRIES && tries <= |urls|
      ensures net.attempts == old(net.attempts) + Rounds(Rotation(old(currentUrlIndex), |urls|), rounds)
                              + Rotation(old(currentUrlIndex), |urls|)[..tries]
      ensures ok ==> rounds < MAX_RETRIES && tries > 0 && circuitState == Closed && failures == [] &&
                     currentUrlIndex == Rotation(old(currentUrlIndex), |urls|)[tries - 1]
      ensures !ok ==> tries == 0 && circuitState == Open && currentUrlIndex == old(currentUrlIndex) &&
                      old(failures) <= failures && |failures| == |old(failures)| + rounds
      ensures !ok && old(Permits()) ==> rounds > 0
      ensures lastHealthCheck == old(lastHealthCheck)
      ensures old(net.slept) <= net.slept <= old(net.slept) + 300 && (!ok ==> net.slept == old(net.slept) + 300)
    {
      ghost var order := Rotation(currentUrlIndex, |urls|);
      rounds, tries := 0, 0;
      ok := false;
      for attempt := 0 to MAX_RETRIES
        invariant Valid() && net.now >= old(net.now) && !Ready() && !ok
        invariant old(failures) <= failures && |failures| == |old(failures)| + rounds
        invariant currentUrlIndex == old(currentUrlIndex) && lastHealthCheck == old(lastHealthCheck)
        invariant rounds <= attempt && tries == 0
        invariant net.attempts == old(net.attempts) + Rounds(order, rounds)
        invariant attempt == 0 ==> Permits() == old(Permits())
        invariant attempt > 0 ==> circuitState != HalfOpen && (old(Permits()) ==> rounds > 0)
        invariant rounds < attempt ==> failureCount >= FAILURE_THRESHOLD
        invariant net.slept == old(net.slept) + (if attempt == 0 then 0 else if attempt == 1 then 100 else 300)
      {
        RoundsNext(old(net.attempts), order, rounds);
        ghost var permitted := Permits();
        ok, tries := Retry(attempt);
        if ok {
          return;
        }
        rounds, tries := rounds + (if permitted then 1 else 0), 0;
      }
    }

    /**
     * `reconnect`: up to three rounds with 100 ms and 200 ms between them. A failure forgets no failure, has tried
     * every server in every round the breaker let through, the first at least when it was permitted, and leaves the
     * breaker open.
     */
    method Reconnect() returns (ok: bool, ghost rounds: nat, ghost tries: nat)
      requires Valid()
      modifies this, net`now, net`attempts, net`slept, net`upgrades
      ensures Valid() && net.now >= old(net.now)
      ensures ok == Ready() && rounds <= MAX_RETRIES && tries <= |urls|
      ensures net.attempts == old(net.attempts) + Rounds(Rotation(old(currentUrlIndex), |urls|), rounds)
                              + Rotation(old(currentUrlIndex), |urls|)[..tries]
      ensures ok ==> rounds < MAX_RETRIES && tries > 0 && circuitState == Closed && failures == [] &&
                     currentUrlIndex == Rotation(old(currentUrlIndex), |urls|)[tries - 1]
      ensures !ok ==> tries == 0 && circuitState == Open && currentUrlIndex == old(currentUrlIndex) &&
                      old(failures) <= failures && |failures| == |old(failures)| + rounds
      ensures !ok && old(Permits()) ==> rounds > 0
      ensures lastHealthCheck == old(lastHealthCheck)
      ensures old(net.slept) <= net.slept <= old(net.slept) + 300 && (!ok ==> net.slept == old(net.slept) + 300)
    {
      connected := false;
      client := None;
      ok, rounds, tries := RetryRounds();
    }

    /**
     * `validateConnection`: true exactly when it leaves a client believed to be connected. A connection checked lately
     * is believed at once, an older one is checked once, and only a missing or dead one is replaced.
     */
    method ValidateConnection() returns (ok: bool)
      requires Valid()
      modifies this, net`now, net`attempts, net`slept, net`upgrades, net`checks
      ensures Valid() && net.now >= old(net.now)
      ensures ok == Ready() && (!ok ==> old(failures) <= failures && circuitState == Open)
      ensures net.checks == old(net.checks) +
              (if old(Ready()) && old(net.now) - old(lastHealthCheck) >= 30000 then 1 else 0)
      ensures old(Ready()) && old(net.now) - old(lastHealthCheck) < 30000 ==>
                ok && net.now == old(net.now) && net.attempts == old(net.attempts)
      ensures lastHealthCheck == old(lastHealthCheck) ||
              (ok && lastHealthCheck == old(net.now) && net.attempts == old(net.attempts))
      ensures |net.attempts| <= |old(net.attempts)| + MAX_RETRIES * |urls|
      ensures old(net.slept) <= net.slept <= old(net.slept) + 300
    {
      var now := net.now;
      if connected && client.Some? && now - lastHealthCheck < HEALTH_CHECK_INTERVAL {
        return true;
      }
      ghost var rounds, tries;
      if client.None? || !connected {
        ok, rounds, tries := Reconnect();
        AttemptsBound(rounds, tries, |urls|, ok);
        return;
      }
      var alive := net.HealthCheck();
      if alive {
        lastHealthCheck := now;
        return true;
      }
      ok, rounds, tries := Reconnect();
      AttemptsBound(rounds, tries, |urls|, ok);
    }

    /** The operation is entered only when connected with a client. */
    method RunOperation() returns (outcome: OperationOutcome)
      requires Valid() && Ready()
      modifies net`now, net`outcomes
      ensures Valid() && net.now >= old(net.now) && net.outcomes == old(net.outcomes) + [outcome]
    {
      outcome := net.Operate();
    }

    /**
     * `withRetry`: the operation runs again only after a connection error, at most four times in all; the result is
     * that of the last run, or unavailability when no connection was left for another. The servers are tried at most
     * twelve times their number, and the delays add up to at most 1900 ms.
     */
    method WithRetry() returns (result: RetryResult)
      requires Valid()
      modifies this, net`now, net`attempts, net`slept, net`upgrades, net`checks, net`outcomes
      ensures Valid() && net.now >= old(net.now)
      ensures old(net.outcomes) <= net.outcomes
      ensures var runs := net.outcomes[|old(net.outcomes)|..];
              && |runs| <= 4
              && (forall i :: 0 <= i < |runs| - 1 ==> runs[i] == ConnectionError)
              && (result == Returned <==> |runs| > 0 && runs[|runs| - 1] == Done)
              && (result == Thrown <==> |runs| > 0 && (runs[|runs| - 1] == OtherError
                                                       || (|runs| == 4 && runs[3] == ConnectionError)))
              && (result == Unavailable <==> |runs| < 4 && (|runs| > 0 ==> runs[|runs| - 1] == ConnectionError))
              && net.slept - old(net.slept) >= Waited(if result == Unavailable then |runs| else |runs| - 1)
      ensures |net.attempts| <= |old(net.attempts)| + 12 * |urls|
      ensures net.slept <= old(net.slept) + 1900
      ensures result == Returned ==> Ready()
      ensures result == Unavailable ==> !Ready() && circuitState == Open
    {
      ghost var runs: seq<OperationOutcome> := [];
      for attempt := 0 to MAX_RETRIES + 1
        invariant Valid() && net.now >= old(net.now)
        invariant |runs| == attempt && net.outcomes == old(net.outcomes) + runs
        invariant forall i :: 0 <= i < |runs| ==> runs[i] == ConnectionError
        invariant |net.attempts| <= |old(net.attempts)| + attempt * (MAX_RETRIES * |urls|)
        invariant Waited(attempt) <= net.slept - old(net.slept) <= 300 * attempt + Waited(attempt)
        invariant attempt <= MAX_RETRIES
      {
        WaitedNext(attempt);
        var available := ValidateConnection();
        assert (attempt + 1) * (MAX_RETRIES * |urls|) <= 4 * (MAX_RETRIES * |urls|);
        if !available {
          assert net.outcomes[|old(net.outcomes)|..] == runs;
          return Unavailable;
        }
        var outcome := RunOperation();
        runs := runs + [outcome];
        assert net.outcomes[|old(net.outcomes)|..] == runs;
        if outcome == Done {
          return Returned;
        }
        if outcome == ConnectionError && attempt < MAX_RETRIES {
          connected := false;
          net.Sleep(Backoff(attempt));
        } else {
          return Thrown;
        }
      }
      assert false;
      return Thrown;
    }

    /**
     * `userBind`: refused without a bind while the breaker is open; otherwise the result is that of the reply. A
     * failure of the server is counted, an accepted bind closes the breaker, and a refused password leaves it as the
     * permission check left it, half open included.
     */
    method UserBind() returns (result: BindResult, ghost reply: Option<BindReply>)
      requires Valid()
      modifies this, net`now
      ensures Valid() && net.now >= old(net.now)
      ensures reply.Some? <==> old(circuitState) != Open || old(net.now) - old(lastFailureTime) >= 30000
      ensures reply.None? ==> failures == old(failures) && circuitState == old(circuitState)
      ensures result.success <==> reply.Some? && reply.value.Accepted?
      ensures reply.Some? && (reply.value.Accepted? || reply.value.PolicyError?) ==>
                result.errorCode == reply.value.policyCode
      ensures reply == Some(InvalidCredentials) ==> result.errorCode == "PE_BADCREDENTIALS"
      ensures reply == Some(OtherBindError) ==> result.errorCode == "PE_LDAPERROR"
      ensures reply in {None, Some(ConnectionLost), Some(NotCreated)} ==> result.errorCode == "PE_LDAPCONNECTFAILED"
      ensures reply.Some? && result.success ==> circuitState == Closed && failures == []
      ensures reply in {Some(ConnectionLost), Some(NotCreated)} ==>
                failures == old(failures) + [net.now] && (|failures| >= 3 <==> circuitState == Open)
      ensures reply.Some? && (reply.value.PolicyError? || reply.value in {InvalidCredentials, OtherBindError}) ==>
                && failures == old(failures)
                && circuitState == if old(circuitState) == Open then HalfOpen else old(circuitState)
      ensures client == old(client) && connected == old(connected) && currentUrlIndex == old(currentUrlIndex)
    {
      var allowed := CanAttemptConnection();
      if !allowed {
        return UNAVAILABLE, None;
      }
      var answer := NotCreated;
      if |urls| > 0 {
        answer := net.Bind();
      }
      reply := Some(answer);
      match answer
      case Accepted(code) =>
        OnConnectionSuccess();
        result := BindResult(true, code);
      case PolicyError(code) =>
        result := BindResult(false, code);
      case InvalidCredentials =>
        result := BindResult(false, "PE_BADCREDENTIALS");
      case ConnectionLost =>
        OnConnectionFailure();
        result := UNAVAILABLE;
      case OtherBindError =>
        result := BindResult(false, "PE_LDAPERROR");
      case NotCreated =>
        OnConnectionFailure();
        result := UNAVAILABLE;
    }

    method Close()
      requires Valid()
      modifies `client, `connected
      ensures Valid() && !Ready()
    {
      if client.Some? {
        client := None;
        connected := false;
      }
    }

    method ResetCircuitBreaker()
      requires Valid()
      modifies `circuitState, `failureCount, `lastFailureTime, `failures
      ensures Valid() && circuitState == Closed && failures == []
    {
      circuitState := Closed;
      failureCount := 0;
      lastFailureTime := 0;
      failures := [];
    }
  }
}
