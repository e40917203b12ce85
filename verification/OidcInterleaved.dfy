/**
 * Concurrent token requests of the OpenID Connect provider, each advanced one await at a time in any order
 * (packages/issuer-oidc/src/provider.ts).
 */
module OidcInterleaved {
  import opened Wrappers
  import Text
  import opened OidcClaims
  import opened OidcGrants

  /** How far the handling of one request has come. */
  datatype Phase =
    | Arrived(req: CodeRequest)
    | Consumed(req: CodeRequest, data: CodeData)
    | Granted(req: CodeRequest, data: CodeData, at: int)
    | AccessStored(req: CodeRequest, data: CodeData, at: int, accessToken: string)
    | Finished(req: CodeRequest, data: CodeData, at: int, session: Attributes, tokens: Tokens)
    | Refused(error: Error)

  /** The stores, the requests in progress, every code ever issued and what every token was stored with. */
  datatype System = System(codes: map<string, CodeData>, access: map<string, TokenData>,
                           refresh: map<string, TokenData>, requests: map<nat, Phase>,
                           issued: map<string, CodeData>, minted: map<string, TokenData>)

  datatype Action =
    | GenerateCode(code: string, data: CodeData)
    | Arrive(pid: nat, req: CodeRequest)
    | Advance(pid: nat, now: int, token: string, session: Attributes)
    | OtherAccess(token: string, other: TokenData)
    | Revoke(revoked: string)

  const INITIAL := System(map[], map[], map[], map[], map[], map[])

  /** Generated codes and tokens are new; only a request in progress advances. */
  ghost predicate Enabled(s: System, a: Action) {
    match a
    case GenerateCode(code, _) => code !in s.issued
    case Arrive(pid, _) => pid !in s.requests
    case Advance(pid, _, token, _) => pid in s.requests && token !in s.minted
    case OtherAccess(token, _) => token !in s.minted
    case Revoke(_) => true
  }

  /** The code is looked up and removed in one go, unless the request lacks a parameter. */
  ghost function ConsumeStep(s: System, pid: nat, req: CodeRequest): System {
    if req.code == "" || req.redirectUri == "" then s.(requests := s.requests[pid := Refused(InvalidRequest)])
    else
      var (codes, data) := Consume(s.codes, req.code);
      s.(codes := codes,
         requests := s.requests[pid := if data.Some? then Consumed(req, data.value) else Refused(InvalidGrant)])
  }

  ghost function CheckStep(cfg: Config, s: System, pid: nat, req: CodeRequest, data: CodeData, now: int): System {
    var error := CodeError(cfg, req, data, now);
    s.(requests := s.requests[pid := if error.Some? then Refused(error.value) else Granted(req, data, now)])
  }

  ghost function AccessStep(cfg: Config, s: System, pid: nat, req: CodeRequest, data: CodeData, at: int, token: string)
    : System
  {
    var stored := AccessData(cfg, data.clientId, data.userId, data.sessionId, data.scope, at);
    s.(access := s.access[token := stored], minted := s.minted[token := stored],
       requests := s.requests[pid := AccessStored(req, data, at, token)])
  }

  ghost function RefreshStep(cfg: Config, s: System, pid: nat, req: CodeRequest, data: CodeData, at: int,
                             accessToken: string, token: string, session: Attributes): System
  {
    var tokens := TokensFor(cfg, data.clientId, data.userId, data.nonce, data.scope, session, accessToken, token);
    var done := s.(requests := s.requests[pid := Finished(req, data, at, session, tokens)]);
    if WantsRefresh(cfg, data.clientId, data.scope) then
      var stored := RefreshData(cfg, data.clientId, data.userId, data.sessionId, data.scope, at);
      done.(refresh := s.refresh[token := stored], minted := s.minted[token := stored])
    else done
  }

  /** From one await to the next. */
  ghost function AdvanceRequest(cfg: Config, s: System, pid: nat, now: int, token: string, session: Attributes): System
    requires pid in s.requests
  {
    match s.requests[pid]
    case Arrived(req) => ConsumeStep(s, pid, req)
    case Consumed(req, data) => CheckStep(cfg, s, pid, req, data, now)
    case Granted(req, data, at) => AccessStep(cfg, s, pid, req, data, at, token)
    case AccessStored(req, data, at, accessToken) =>
      RefreshStep(cfg, s, pid, req, data, at, accessToken, token, session)
    case Finished(_, _, _, _, _) => s
    case Refused(_) => s
  }

  ghost function Next(cfg: Config, s: System, a: Action): System {
    match a
    case GenerateCode(code, data) => s.(codes := s.codes[code := data], issued := s.issued[code := data])
    case Arrive(pid, req) => s.(requests := s.requests[pid := Arrived(req)])
    case Advance(pid, now, token, session) =>
      if pid in s.requests then AdvanceRequest(cfg, s, pid, now, token, session) else s
    case OtherAccess(token, other) => s.(access := s.access[token := other], minted := s.minted[token := other])
    case Revoke(revoked) => s.(access := s.access - {revoked}, refresh := s.refresh - {revoked})
  }

  ghost function Run(cfg: Config, actions: seq<Action>): System {
    if |actions| == 0 then INITIAL else Next(cfg, Run(cfg, actions[..|actions| - 1]), actions[|actions| - 1])
  }

  /** Every action is enabled when it happens. */
  ghost predicate Legal(cfg: Config, actions: seq<Action>) {
    forall i :: 0 <= i < |actions| ==> Enabled(Run(cfg, actions[..i]), actions[i])
  }

  // ---------------------------------------------------------------- the invariant

  /** The request has taken its code out of the store. */
  predicate HoldsCode(phase: Phase) {
    phase.Consumed? || phase.Granted? || phase.AccessStored? || phase.Finished?
  }

  ghost predicate HeldCodes(s: System) {
    forall p :: p in s.requests && HoldsCode(s.requests[p]) ==>
      && s.requests[p].req.code !in s.codes
      && s.requests[p].req.code in s.issued
      && s.issued[s.requests[p].req.code] == s.requests[p].data
  }

  ghost predicate HeldOnce(s: System) {
    forall p, q ::
      p in s.requests && q in s.requests && p != q && HoldsCode(s.requests[p]) && HoldsCode(s.requests[q]) ==>
      s.requests[p].req.code != s.requests[q].req.code
  }

  ghost predicate Vetted(cfg: Config, s: System, phase: Phase) {
    && (phase.Granted? || phase.AccessStored? || phase.Finished? ==>
          CodeError(cfg, phase.req, phase.data, phase.at) == None)
    && (phase.AccessStored? ==> MintedFor(cfg, s, phase.accessToken, phase.data, phase.at))
    && (phase.Finished? ==> IssuedFor(cfg, s, phase.tokens, phase.data, phase.session, phase.at))
  }

  /** The access token was stored with the code's client, user, session and scope. */
  ghost predicate MintedFor(cfg: Config, s: System, accessToken: string, data: CodeData, at: int) {
    && accessToken in s.minted
    && s.minted[accessToken] == AccessData(cfg, data.clientId, data.userId, data.sessionId, data.scope, at)
  }

  /** Every token of the response belongs to the code; the ID token holds the claims of the session over the code's. */
  ghost predicate IssuedFor(cfg: Config, s: System, t: Tokens, data: CodeData, session: Attributes, at: int) {
    && MintedFor(cfg, s, t.accessToken, data, at)
    && t.scope == data.scope
    && t.idToken == IdTokenFor(cfg, data.clientId, data.userId, data.nonce, data.scope, session)
    && (t.refreshToken.Some? <==> WantsRefresh(cfg, data.clientId, data.scope))
    && (t.refreshToken.Some? ==>
          && t.refreshToken.value in s.minted
          && s.minted[t.refreshToken.value] ==
             RefreshData(cfg, data.clientId, data.userId, data.sessionId, data.scope, at))
  }

  ghost predicate StoresMinted(s: System) {
    && (forall c :: c in s.codes ==> c in s.issued && s.issued[c] == s.codes[c])
    && (forall t :: t in s.access ==> t in s.minted && s.minted[t] == s.access[t])
    && (forall t :: t in s.refresh ==> t in s.minted && s.minted[t] == s.refresh[t])
  }

  ghost predicate AllVetted(cfg: Config, s: System) {
    forall p {:trigger Vetted(cfg, s, s.requests[p])} :: p in s.requests ==> Vetted(cfg, s, s.requests[p])
  }

  ghost predicate Inv(cfg: Config, s: System) {
    && HeldCodes(s)
    && HeldOnce(s)
    && StoresMinted(s)
    && AllVetted(cfg, s)
  }

  /** Requests stay vetted while tokens are only added to those minted; those that moved are vetted anew. */
  lemma VettedStays(cfg: Config, s: System, s': System, moved: set<nat>)
    requires AllVetted(cfg, s)
    requires forall t :: t in s.minted ==> t in s'.minted && s'.minted[t] == s.minted[t]
    requires forall p :: p in s'.requests && p !in moved ==> p in s.requests && s'.requests[p] == s.requests[p]
    requires forall p :: p in moved ==> p in s'.requests && Vetted(cfg, s', s'.requests[p])
    ensures AllVetted(cfg, s')
  {
    forall p | p in s'.requests
      ensures Vetted(cfg, s', s'.requests[p])
    {
      if p !in moved {
        assert Vetted(cfg, s, s.requests[p]);
      }
    }
  }

  /** Consuming moves a code from the store to the one request that asked for it. */
  lemma ConsumeKeeps(cfg: Config, s: System, pid: nat)
    requires Inv(cfg, s) && pid in s.requests && s.requests[pid].Arrived?
    ensures Inv(cfg, ConsumeStep(s, pid, s.requests[pid].req))
  {
    var req := s.requests[pid].req;
    var s' := ConsumeStep(s, pid, req);
    VettedStays(cfg, s, s', {pid});
    if req.code != "" && req.redirectUri != "" && req.code in s.codes {
      HeldTaken(s, s', pid, req);
    } else {
      HeldWithout(s, s', pid, s'.requests[pid]);
    }
  }

  lemma HeldWithout(s: System, s': System, pid: nat, phase: Phase)
    requires HeldCodes(s) && HeldOnce(s) && !HoldsCode(phase)
    requires s'.codes == s.codes && s'.issued == s.issued && s'.requests == s.requests[pid := phase]
    ensures HeldCodes(s') && HeldOnce(s')
  {
  }

  lemma HeldTaken(s: System, s': System, pid: nat, req: CodeRequest)
    requires HeldCodes(s) && HeldOnce(s)
    requires req.code in s.codes && req.code in s.issued && s.issued[req.code] == s.codes[req.code]
    requires s'.codes == s.codes - {req.code} && s'.issued == s.issued
    requires s'.requests == s.requests[pid := Consumed(req, s.codes[req.code])]
    ensures HeldCodes(s') && HeldOnce(s')
  {
    forall p | p in s.requests && HoldsCode(s.requests[p])
      ensures s.requests[p].req.code != req.code
    {
    }
  }

  /** A request that keeps the code it holds, or drops it, leaves the codes held as they were. */
  lemma HeldStays(s: System, s': System, pid: nat, phase: Phase)
    requires HeldCodes(s) && HeldOnce(s) && pid in s.requests && HoldsCode(s.requests[pid])
    requires HoldsCode(phase) ==> phase.req == s.requests[pid].req && phase.data == s.requests[pid].data
    requires s'.codes == s.codes && s'.issued == s.issued && s'.requests == s.requests[pid := phase]
    ensures HeldCodes(s') && HeldOnce(s')
  {
  }

  lemma CheckKeeps(cfg: Config, s: System, pid: nat, now: int)
    requires Inv(cfg, s) && pid in s.requests && s.requests[pid].Consumed?
    ensures Inv(cfg, CheckStep(cfg, s, pid, s.requests[pid].req, s.requests[pid].data, now))
  {
    var s' := CheckStep(cfg, s, pid, s.requests[pid].req, s.requests[pid].data, now);
    HeldStays(s, s', pid, s'.requests[pid]);
    VettedStays(cfg, s, s', {pid});
  }

  lemma AccessKeeps(cfg: Config, s: System, pid: nat, token: string)
    requires Inv(cfg, s) && pid in s.requests && s.requests[pid].Granted? && token !in s.minted
    ensures Inv(cfg, AccessStep(cfg, s, pid, s.requests[pid].req, s.requests[pid].data, s.requests[pid].at, token))
  {
    var s' := AccessStep(cfg, s, pid, s.requests[pid].req, s.requests[pid].data, s.requests[pid].at, token);
    assert Vetted(cfg, s, s.requests[pid]);
    HeldStays(s, s', pid, s'.requests[pid]);
    VettedStays(cfg, s, s', {pid});
  }

  /** The tokens handed out by the last step belong to the code. */
  lemma TokensIssued(cfg: Config, s: System, pid: nat, phase: Phase, token: string, session: Attributes)
    requires phase.AccessStored? && MintedFor(cfg, s, phase.accessToken, phase.data, phase.at) && token !in s.minted
    ensures var data := phase.data;
            var tokens := TokensFor(cfg, data.clientId, data.userId, data.nonce, data.scope, session,
                                    phase.accessToken, token);
            IssuedFor(cfg, RefreshStep(cfg, s, pid, phase.req, data, phase.at, phase.accessToken, token, session),
                      tokens, data, session, phase.at)
  {
  }

  lemma RefreshStored(cfg: Config, s: System, pid: nat, phase: Phase, token: string, session: Attributes)
    requires phase.AccessStored? && StoresMinted(s) && token !in s.minted
    ensures StoresMinted(RefreshStep(cfg, s, pid, phase.req, phase.data, phase.at, phase.accessToken, token, session))
  {
  }

  lemma RefreshKeeps(cfg: Config, s: System, pid: nat, token: string, session: Attributes)
    requires Inv(cfg, s) && pid in s.requests && s.requests[pid].AccessStored? && token !in s.minted
    ensures Inv(cfg, RefreshStep(cfg, s, pid, s.requests[pid].req, s.requests[pid].data, s.requests[pid].at,
                                 s.requests[pid].accessToken, token, session))
  {
    var phase := s.requests[pid];
    var s' := RefreshStep(cfg, s, pid, phase.req, phase.data, phase.at, phase.accessToken, token, session);
    assert Vetted(cfg, s, phase);
    TokensIssued(cfg, s, pid, phase, token, session);
    RefreshStored(cfg, s, pid, phase, token, session);
    HeldStays(s, s', pid, s'.requests[pid]);
    VettedStays(cfg, s, s', {pid});
  }

  lemma AdvanceKeeps(cfg: Config, s: System, pid: nat, now: int, token: string, session: Attributes)
    requires Inv(cfg, s) && pid in s.requests && token !in s.minted
    ensures Inv(cfg, AdvanceRequest(cfg, s, pid, now, token, session))
  {
    match s.requests[pid]
    case Arrived(_) => ConsumeKeeps(cfg, s, pid);
    case Consumed(_, _) => CheckKeeps(cfg, s, pid, now);
    case Granted(_, _, _) => AccessKeeps(cfg, s, pid, token);
    case AccessStored(_, _, _, _) => RefreshKeeps(cfg, s, pid, token, session);
    case Finished(_, _, _, _, _) =>
    case Refused(_) =>
  }

  lemma GenerateKeeps(cfg: Config, s: System, code: string, data: CodeData)
    requires Inv(cfg, s) && code !in s.issued
    ensures Inv(cfg, Next(cfg, s, GenerateCode(code, data)))
  {
    VettedStays(cfg, s, Next(cfg, s, GenerateCode(code, data)), {});
  }

  lemma ArriveKeeps(cfg: Config, s: System, pid: nat, req: CodeRequest)
    requires Inv(cfg, s) && pid !in s.requests
    ensures Inv(cfg, Next(cfg, s, Arrive(pid, req)))
  {
    VettedStays(cfg, s, Next(cfg, s, Arrive(pid, req)), {pid});
  }

  lemma NextKeeps(cfg: Config, s: System, a: Action)
    requires Inv(cfg, s) && Enabled(s, a)
    ensures Inv(cfg, Next(cfg, s, a))
  {
    match a
    case GenerateCode(code, data) => GenerateKeeps(cfg, s, code, data);
    case Arrive(pid, req) => ArriveKeeps(cfg, s, pid, req);
    case Advance(pid, now, token, session) => AdvanceKeeps(cfg, s, pid, now, token, session);
    case OtherAccess(_, _) => VettedStays(cfg, s, Next(cfg, s, a), {});
    case Revoke(_) => VettedStays(cfg, s, Next(cfg, s, a), {});
  }

  lemma {:induction false} RunKeeps(cfg: Config, actions: seq<Action>)
    requires Legal(cfg, actions)
    ensures Inv(cfg, Run(cfg, actions))
  {
    if |actions| > 0 {
      var before := actions[..|actions| - 1];
      forall i | 0 <= i < |before|
        ensures Enabled(Run(cfg, before[..i]), before[i])
      {
        assert before[..i] == actions[..i];
      }
      RunKeeps(cfg, before);
      NextKeeps(cfg, Run(cfg, before), actions[|actions| - 1]);
    }
  }

  // ---------------------------------------------------------------- results

  /** The request taken to the end of its checks, and from there to its end, without another in between. */
  ghost function Checked(cfg: Config, s: System, pid: nat, now: int): System {
    Next(cfg, Next(cfg, s, Advance(pid, now, "", map[])), Advance(pid, now, "", map[]))
  }

  ghost function Ended(cfg: Config, s: System, pid: nat, now: int, accessToken: string, refreshToken: string,
                       session: Attributes)
    : System
  {
    Next(cfg, Next(cfg, s, Advance(pid, now, accessToken, map[])), Advance(pid, now, refreshToken, session))
  }

  lemma CheckedExactly(cfg: Config, s: System, pid: nat, now: int)
    requires pid in s.requests && s.requests[pid].Arrived?
    requires s.requests[pid].req.code != "" && s.requests[pid].req.redirectUri != ""
    ensures var req := s.requests[pid].req;
            var after := Checked(cfg, s, pid, now);
            && pid in after.requests && req.code !in after.codes
            && if req.code in s.codes && CodeError(cfg, req, s.codes[req.code], now) == None
               then after.requests[pid] == Granted(req, s.codes[req.code], now) else after.requests[pid].Refused?
  {
    var req := s.requests[pid].req;
    var consumed := Next(cfg, s, Advance(pid, now, "", map[]));
    assert consumed.requests[pid] ==
           if req.code in s.codes then Consumed(req, s.codes[req.code]) else Refused(InvalidGrant);
  }

  lemma AccessPhase(cfg: Config, s: System, pid: nat, now: int, token: string, session: Attributes)
    requires pid in s.requests && (s.requests[pid].Granted? || s.requests[pid].Refused?)
    ensures var after := Next(cfg, s, Advance(pid, now, token, session));
            && pid in after.requests && after.codes == s.codes
            && if s.requests[pid].Granted? then after.requests[pid].AccessStored? else after.requests[pid].Refused?
  {
  }

  lemma LastPhase(cfg: Config, s: System, pid: nat, now: int, token: string, session: Attributes)
    requires pid in s.requests && (s.requests[pid].AccessStored? || s.requests[pid].Refused?)
    ensures var after := Next(cfg, s, Advance(pid, now, token, session));
            && pid in after.requests && after.codes == s.codes
            && (after.requests[pid].Finished? <==> s.requests[pid].AccessStored?)
  {
  }

  lemma EndedExactly(cfg: Config, s: System, pid: nat, now: int, accessToken: string, refreshToken: string,
                     session: Attributes)
    requires pid in s.requests && (s.requests[pid].Granted? || s.requests[pid].Refused?)
    ensures var after := Ended(cfg, s, pid, now, accessToken, refreshToken, session);
            && pid in after.requests && after.codes == s.codes
            && (after.requests[pid].Finished? <==> s.requests[pid].Granted?)
  {
    AccessPhase(cfg, s, pid, now, accessToken, map[]);
    LastPhase(cfg, Next(cfg, s, Advance(pid, now, accessToken, map[])), pid, now, refreshToken, session);
  }

  /**
   * A request that comes through undisturbed gets tokens exactly when its code is stored and not expired, it repeats
   * the redirect URI and, if it names a client, the client of the code, that client is known and confidential only with
   * its secret, and a code challenge is met: by the verifier itself for the method "plain", by its digest otherwise.
   */
  lemma ServedExactly(cfg: Config, s: System, pid: nat, now: int, accessToken: string, refreshToken: string,
                      session: Attributes)
    requires pid in s.requests && s.requests[pid].Arrived?
    requires s.requests[pid].req.code != "" && s.requests[pid].req.redirectUri != ""
    ensures var req := s.requests[pid].req;
            var after := Ended(cfg, Checked(cfg, s, pid, now), pid, now, accessToken, refreshToken, session);
            && pid in after.requests && req.code !in after.codes
            && (after.requests[pid].Finished? <==>
                  && req.code in s.codes
                  && var data := s.codes[req.code];
                  && now <= data.expiresAt && req.redirectUri == data.redirectUri
                  && (req.clientId == "" || req.clientId == data.clientId)
                  && var rp := cfg.findRP(data.clientId);
                  && rp.Some?
                  && (rp.value.isPublic || rp.value.clientSecret == "" || req.clientSecret == rp.value.clientSecret)
                  && (data.codeChallenge == "" ||
                      (req.codeVerifier != "" && (if data.codeChallengeMethod == "plain"
                                                  then req.codeVerifier == data.codeChallenge
                                                  else cfg.s256(req.codeVerifier) == data.codeChallenge))))
  {
    CheckedExactly(cfg, s, pid, now);
    EndedExactly(cfg, Checked(cfg, s, pid, now), pid, now, accessToken, refreshToken, session);
  }

  /** Whatever the interleaving, no two requests ever hold the same code past its consumption, finished or not. */
  lemma RedeemedAtMostOnce(cfg: Config, actions: seq<Action>, p: nat, q: nat)
    requires Legal(cfg, actions)
    requires var s := Run(cfg, actions);
             && p in s.requests && q in s.requests
             && HoldsCode(s.requests[p]) && HoldsCode(s.requests[q])
             && s.requests[p].req.code == s.requests[q].req.code
    ensures p == q
  {
    RunKeeps(cfg, actions);
  }

  /**
   * Tokens handed out belong to an issued code and bear its client, user, session and scope. They were asked for in
   * time with its redirect URI, its client's secret and, when it has a challenge, a verifier that meets it.
   */
  lemma TokensBelongToCode(cfg: Config, actions: seq<Action>, p: nat)
    requires Legal(cfg, actions)
    requires p in Run(cfg, actions).requests && Run(cfg, actions).requests[p].Finished?
    ensures var s := Run(cfg, actions);
            var phase := s.requests[p];
            && phase.req.code in s.issued && phase.req.code !in s.codes
            && var data := s.issued[phase.req.code];
            && phase.data == data
            && phase.at <= data.expiresAt
            && phase.req.redirectUri == data.redirectUri
            && (phase.req.clientId == "" || phase.req.clientId == data.clientId)
            && var rp := cfg.findRP(data.clientId);
            && rp.Some?
            && (rp.value.isPublic || rp.value.clientSecret == "" || phase.req.clientSecret == rp.value.clientSecret)
            && (data.codeChallenge != "" ==>
                  && phase.req.codeVerifier != ""
                  && (data.codeChallengeMethod == "plain" ==> phase.req.codeVerifier == data.codeChallenge)
                  && (data.codeChallengeMethod != "plain" ==>
                        cfg.s256(phase.req.codeVerifier) == data.codeChallenge))
    ensures var s := Run(cfg, actions);
            var tokens, data, at := s.requests[p].tokens, s.requests[p].data, s.requests[p].at;
            && tokens.scope == data.scope
            && tokens.accessToken in s.minted
            && s.minted[tokens.accessToken] ==
               TokenData(data.clientId, data.userId, data.sessionId, data.scope, at, at + cfg.accessTtl(data.clientId))
            && (tokens.accessToken in s.access ==> s.access[tokens.accessToken] == s.minted[tokens.accessToken])
            && var rp := cfg.findRP(data.clientId);
            && rp.Some?
            && (tokens.refreshToken.Some? <==>
                  "offline_access" in Text.Split(data.scope, ' ') && rp.value.allowOffline)
            && (tokens.refreshToken.Some? ==>
                  && tokens.refreshToken.value in s.minted
                  && s.minted[tokens.refreshToken.value] ==
                     TokenData(data.clientId, data.userId, data.sessionId, data.scope, at,
                               at + cfg.refreshTtl(data.clientId)))
  {
    RunKeeps(cfg, actions);
    var s := Run(cfg, actions);
    assert Vetted(cfg, s, s.requests[p]);
  }

  /**
   * The subject, the audience or the nonce of the ID token handed out is that of the code exactly when no exported
   * variable of the client puts another attribute of the session in its place.
   */
  lemma IdTokenBelongsToCode(cfg: Config, actions: seq<Action>, p: nat, name: string)
    requires Legal(cfg, actions) && OwnName(name)
    requires p in Run(cfg, actions).requests && Run(cfg, actions).requests[p].Finished?
    requires Distinct(cfg.exportedVars(Run(cfg, actions).requests[p].data.clientId))
    ensures var phase := Run(cfg, actions).requests[p];
            var own := map["sub" := phase.data.userId, "aud" := phase.data.clientId]
                       + (if phase.data.nonce == "" then map[] else map["nonce" := phase.data.nonce]);
            var vars := cfg.exportedVars(phase.data.clientId);
            Survives(own, phase.tokens.idToken, name) <==>
            forall i :: Sets(vars, phase.session, name, i) ==> name in own && phase.session[vars[i].1] == own[name]
  {
    RunKeeps(cfg, actions);
    var phase := Run(cfg, actions).requests[p];
    assert Vetted(cfg, Run(cfg, actions), phase);
    OwnClaimSurvives(OwnClaims(phase.data.userId, phase.data.clientId, phase.data.nonce),
                     cfg.exportedVars(phase.data.clientId), phase.session, phase.data.scope, name);
  }

  /**
   * Any other claim of the ID token is the attribute of an exported variable of the client, else the attribute of its
   * own name when the scope of the code asks for it.
   */
  lemma IdTokenAboutUser(cfg: Config, actions: seq<Action>, p: nat, name: string)
    requires Legal(cfg, actions) && name !in {"sub", "aud", "nonce"}
    requires p in Run(cfg, actions).requests && Run(cfg, actions).requests[p].Finished?
    requires Distinct(cfg.exportedVars(Run(cfg, actions).requests[p].data.clientId))
    ensures var phase := Run(cfg, actions).requests[p];
            var vars, idToken := cfg.exportedVars(phase.data.clientId), phase.tokens.idToken;
            && (forall i :: Sets(vars, phase.session, name, i) ==>
                  name in idToken && idToken[name] == phase.session[vars[i].1])
            && ((forall i :: !Sets(vars, phase.session, name, i)) ==>
                  && (name in idToken <==>
                        name in phase.session && StandardClaim(Text.Split(phase.data.scope, ' '), name))
                  && (name in idToken ==> idToken[name] == phase.session[name]))
  {
    RunKeeps(cfg, actions);
    var phase := Run(cfg, actions).requests[p];
    assert Vetted(cfg, Run(cfg, actions), phase);
    UserClaimExactly(cfg.exportedVars(phase.data.clientId), phase.session, phase.data.scope, name);
  }
}
