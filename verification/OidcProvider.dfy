/**
 * The OpenID Connect provider handling one request at a time, with its in-memory store
 * (packages/issuer-oidc/src/provider.ts), and the lineage of every token.
 */
module OidcProvider {
  import opened Wrappers
  import Text
  import opened OidcClaims
  import opened OidcGrants

  /** `InMemoryTokenStore` */
  class TokenStore {
    var authCodes: map<string, CodeData>
    var accessTokens: map<string, TokenData>
    var refreshTokens: map<string, TokenData>

    constructor ()
      ensures authCodes == map[] && accessTokens == map[] && refreshTokens == map[]
    {
      authCodes, accessTokens, refreshTokens := map[], map[], map[];
    }

    method StoreAuthCode(code: string, data: CodeData)
      modifies `authCodes
      ensures authCodes == old(authCodes)[code := data]
    {
      authCodes := authCodes[code := data];
    }

    method ConsumeAuthCode(code: string) returns (data: Option<CodeData>)
      modifies `authCodes
      ensures (authCodes, data) == Consume(old(authCodes), code)
    {
      if code in authCodes {
        data := Some(authCodes[code]);
        authCodes := authCodes - {code};
      } else {
        data := None;
      }
    }

    method StoreAccessToken(token: string, data: TokenData)
      modifies `accessTokens
      ensures accessTokens == old(accessTokens)[token := data]
    {
      accessTokens := accessTokens[token := data];
    }

    method RevokeAccessToken(token: string)
      modifies `accessTokens
      ensures accessTokens == old(accessTokens) - {token}
    {
      accessTokens := accessTokens - {token};
    }

    method StoreRefreshToken(token: string, data: TokenData)
      modifies `refreshTokens
      ensures refreshTokens == old(refreshTokens)[token := data]
    {
      refreshTokens := refreshTokens[token := data];
    }

    method GetRefreshToken(token: string) returns (data: Option<TokenData>)
      ensures data == if token in refreshTokens then Some(refreshTokens[token]) else None
    {
      data := if token in refreshTokens then Some(refreshTokens[token]) else None;
    }

    method RevokeRefreshToken(token: string)
      modifies `refreshTokens
      ensures refreshTokens == old(refreshTokens) - {token}
    {
      refreshTokens := refreshTokens - {token};
    }
  }

  // ---------------------------------------------------------------- the books of the provider

  /** The stores with the history: every code issued, every token generated, and the code each token
      descends from. */
  datatype Books = Books(codes: map<string, CodeData>, access: map<string, TokenData>, refresh: map<string, TokenData>,
                         issued: map<string, CodeData>, used: set<string>, root: map<string, string>)

  /** The stored data names the client, user and session of the code. */
  predicate SameOwner(t: TokenData, data: CodeData) {
    t.clientId == data.clientId && t.userId == data.userId && t.sessionId == data.sessionId
  }

  /**
   * Codes are as issued; every stored refresh token, and every access token of a grant, descends from a consumed code
   * and bears its owner.
   */
  ghost predicate Descended(b: Books) {
    && (forall c :: c in b.codes ==> c in b.issued && b.issued[c] == b.codes[c])
    && (forall t :: t in b.root ==> t in b.used && b.root[t] in b.issued && b.root[t] !in b.codes)
    && (forall t :: t in b.refresh ==> t in b.root && SameOwner(b.refresh[t], b.issued[b.root[t]]))
    && (forall t :: t in b.access ==> t in b.used)
    && (forall t :: t in b.access && t in b.root ==> SameOwner(b.access[t], b.issued[b.root[t]]))
  }

  /** A client that rotates has at most one stored refresh token for each code. */
  ghost predicate Rotated(cfg: Config, b: Books)
    requires Descended(b)
  {
    forall t, t' :: t in b.refresh && t' in b.refresh && t != t' && b.root[t] == b.root[t'] ==>
      !Rotates(cfg, b.issued[b.root[t]].clientId)
  }

  ghost predicate Sound(cfg: Config, b: Books) {
    Descended(b) && Rotated(cfg, b)
  }

  /** The stored refresh tokens that descend from the code. */
  ghost function Live(b: Books, code: string): set<string> {
    set t | t in b.refresh && t in b.root && b.root[t] == code
  }

  lemma LiveBound(cfg: Config, b: Books, code: string)
    requires Sound(cfg, b) && code in b.issued
    ensures Rotates(cfg, b.issued[code].clientId) ==> |Live(b, code)| <= 1
    ensures code in b.codes ==> Live(b, code) == {}
  {
    if Rotates(cfg, b.issued[code].clientId) && Live(b, code) != {} {
      var t :| t in Live(b, code);
      assert Live(b, code) == {t};
    }
  }

  ghost function Redeemed(b: Books, code: string): Books {
    b.(codes := b.codes - {code})
  }

  ghost function Spent(b: Books, token: string): Books {
    b.(refresh := b.refresh - {token})
  }

  ghost function WithAccess(b: Books, code: string, token: string, data: TokenData): Books {
    b.(access := b.access[token := data], used := b.used + {token}, root := b.root[token := code])
  }

  ghost function WithRefresh(b: Books, code: string, token: string, data: TokenData): Books {
    b.(refresh := b.refresh[token := data], used := b.used + {token}, root := b.root[token := code])
  }

  /** An access token of another grant, which descends from no code. */
  ghost function WithOther(b: Books, token: string, data: TokenData): Books {
    b.(access := b.access[token := data], used := b.used + {token})
  }

  /** The owner of tokens. */
  datatype Owner = Owner(clientId: string, userId: string, sessionId: string)

  predicate Owns(o: Owner, data: CodeData) {
    o == Owner(data.clientId, data.userId, data.sessionId)
  }

  /** New tokens for the owner, descending from the code. */
  ghost function Granted(cfg: Config, b: Books, code: string, o: Owner, scope: string, now: int, accessToken: string,
                         refreshToken: string): Books
  {
    var stored := WithAccess(b, code, accessToken, AccessData(cfg, o.clientId, o.userId, o.sessionId, scope, now));
    if WantsRefresh(cfg, o.clientId, scope)
    then WithRefresh(stored, code, refreshToken, RefreshData(cfg, o.clientId, o.userId, o.sessionId, scope, now))
    else stored
  }

  lemma AccessKeeps(cfg: Config, b: Books, code: string, token: string, data: TokenData)
    requires Sound(cfg, b) && code in b.issued && code !in b.codes && token !in b.used &&
             SameOwner(data, b.issued[code])
    ensures Sound(cfg, WithAccess(b, code, token, data))
    ensures Live(WithAccess(b, code, token, data), code) == Live(b, code)
  {
  }

  lemma RefreshKeeps(cfg: Config, b: Books, code: string, token: string, data: TokenData)
    requires Sound(cfg, b) && code in b.issued && code !in b.codes && token !in b.used &&
             SameOwner(data, b.issued[code])
    requires Rotates(cfg, b.issued[code].clientId) ==> Live(b, code) == {}
    ensures Sound(cfg, WithRefresh(b, code, token, data))
    ensures Live(WithRefresh(b, code, token, data), code) == Live(b, code) + {token}
  {
    var after := WithRefresh(b, code, token, data);
    RefreshDescends(b, code, token, data);
    forall t, t' | t in after.refresh && t' in after.refresh && t != t' && after.root[t] == after.root[t']
      ensures !Rotates(cfg, after.issued[after.root[t]].clientId)
    {
      if t == token || t' == token {
        assert (if t == token then t' else t) in Live(b, code);
      }
    }
  }

  lemma RefreshDescends(b: Books, code: string, token: string, data: TokenData)
    requires Descended(b) && code in b.issued && code !in b.codes && token !in b.used && SameOwner(data, b.issued[code])
    ensures Descended(WithRefresh(b, code, token, data))
    ensures Live(WithRefresh(b, code, token, data), code) == Live(b, code) + {token}
  {
    forall t | t in b.refresh
      ensures t != token && b.root[t] == WithRefresh(b, code, token, data).root[t]
    {
    }
  }

  lemma GrantKeeps(cfg: Config, b: Books, code: string, o: Owner, scope: string, now: int, accessToken: string,
                   refreshToken: string)
    requires Grantable(cfg, b, code) && Owns(o, b.issued[code])
    requires accessToken !in b.used && refreshToken !in b.used && accessToken != refreshToken
    ensures var after := Granted(cfg, b, code, o, scope, now, accessToken, refreshToken);
            && Sound(cfg, after)
            && Live(after, code) == Live(b, code)
                                    + (if WantsRefresh(cfg, o.clientId, scope) then {refreshToken} else {})
  {
    var access := AccessData(cfg, o.clientId, o.userId, o.sessionId, scope, now);
    AccessKeeps(cfg, b, code, accessToken, access);
    if WantsRefresh(cfg, o.clientId, scope) {
      RefreshKeeps(cfg, WithAccess(b, code, accessToken, access), code, refreshToken,
                   RefreshData(cfg, o.clientId, o.userId, o.sessionId, scope, now));
    }
  }

  /** `b` may be followed by a grant of the code: it has been consumed, and rotation has made room. */
  ghost predicate Grantable(cfg: Config, b: Books, code: string) {
    && Sound(cfg, b) && code in b.issued && code !in b.codes
    && (Rotates(cfg, b.issued[code].clientId) ==> Live(b, code) == {})
  }

  lemma RedeemedGrantable(cfg: Config, b: Books, code: string)
    requires Sound(cfg, b)
    ensures Sound(cfg, Redeemed(b, code)) && Live(Redeemed(b, code), code) == Live(b, code)
    ensures code in b.codes ==> Grantable(cfg, Redeemed(b, code), code) && Live(b, code) == {}
  {
  }

  lemma SpentGrantable(cfg: Config, b: Books, token: string)
    requires Sound(cfg, b)
    ensures Sound(cfg, Spent(b, token))
    ensures token in b.refresh ==>
              var code := b.root[token];
              && Live(Spent(b, token), code) == Live(b, code) - {token}
              && (Rotates(cfg, b.issued[code].clientId) ==> Grantable(cfg, Spent(b, token), code))
  {
  }

  // ---------------------------------------------------------------- requests

  /** The session read and the tokens generated while a request is handled. */
  datatype Grant = Grant(now: int, session: Attributes, accessToken: string, refreshToken: string)

  datatype Request =
    | Authorize(request: CodeData, code: string, now: int)
    | CodeGrant(req: CodeRequest, grant: Grant)
    | RefreshGrant(presented: string, scope: string, grant: Grant)
    | OtherAccess(token: string, data: TokenData)
    | Revocation(revoked: string)

  function CodeDataFor(cfg: Config, request: CodeData, now: int): CodeData {
    request.(scope := if request.scope == "" then "openid" else request.scope, expiresAt := now + cfg.codeTtl)
  }

  ghost function Authorized(cfg: Config, b: Books, request: CodeData, code: string, now: int): Books {
    var data := CodeDataFor(cfg, request, now);
    b.(codes := b.codes[code := data], issued := b.issued[code := data])
  }

  /** `handleAuthorizationCodeGrant`: a complete attempt consumes the code whatever comes of it. */
  ghost function AfterCode(cfg: Config, b: Books, req: CodeRequest, g: Grant): (Books, TokenResponse) {
    var error := GrantError(cfg, req, b.codes, g.now);
    if req.code == "" || req.redirectUri == "" then (b, Failure(InvalidRequest))
    else if error.Some? then (Redeemed(b, req.code), Failure(error.value))
    else
      var data := b.codes[req.code];
      (Granted(cfg, Redeemed(b, req.code), req.code, Owner(data.clientId, data.userId, data.sessionId), data.scope,
               g.now, g.accessToken, g.refreshToken),
       Success(TokensFor(cfg, data.clientId, data.userId, data.nonce, data.scope, g.session, g.accessToken,
                         g.refreshToken)))
  }

  /** With rotation the presented token leaves the store. */
  ghost function Presented(cfg: Config, b: Books, presented: string): Books
    requires presented in b.refresh
  {
    if Rotates(cfg, b.refresh[presented].clientId) then Spent(b, presented) else b
  }

  /** `handleRefreshTokenGrant` */
  ghost function AfterRefresh(cfg: Config, b: Books, presented: string, scope: string, g: Grant)
    : (Books, TokenResponse)
  {
    if presented == "" then (b, Failure(InvalidRequest))
    else if presented !in b.refresh || b.refresh[presented].expiresAt < g.now then (b, Failure(InvalidGrant))
    else
      var data := b.refresh[presented];
      var newScope := if scope != "" then scope else data.scope;
      var code := if presented in b.root then b.root[presented] else "";
      (Granted(cfg, Presented(cfg, b, presented), code, Owner(data.clientId, data.userId, data.sessionId), newScope,
               g.now, g.accessToken, g.refreshToken),
       Success(TokensFor(cfg, data.clientId, data.userId, "", newScope, g.session, g.accessToken, g.refreshToken)))
  }

  ghost function Revoked(b: Books, token: string): Books {
    b.(access := b.access - {token}, refresh := b.refresh - {token})
  }

  ghost function Step(cfg: Config, b: Books, r: Request): Books {
    match r
    case Authorize(request, code, now) => Authorized(cfg, b, request, code, now)
    case CodeGrant(req, g) => AfterCode(cfg, b, req, g).0
    case RefreshGrant(presented, scope, g) => AfterRefresh(cfg, b, presented, scope, g).0
    case OtherAccess(token, data) => WithOther(b, token, data)
    case Revocation(token) => Revoked(b, token)
  }

  /** Generated tokens were never generated before. */
  predicate NewTokens(b: Books, g: Grant) {
    g.accessToken !in b.used && g.refreshToken !in b.used && g.accessToken != g.refreshToken
  }

  /** What the request would generate is new. */
  predicate Fresh(b: Books, r: Request) {
    match r
    case Authorize(_, code, _) => code !in b.issued
    case CodeGrant(_, g) => NewTokens(b, g)
    case RefreshGrant(_, _, g) => NewTokens(b, g)
    case OtherAccess(token, _) => token !in b.used
    case Revocation(_) => true
  }

  lemma AuthorizeKeeps(cfg: Config, b: Books, request: CodeData, code: string, now: int)
    requires Sound(cfg, b) && code !in b.issued
    ensures Sound(cfg, Authorized(cfg, b, request, code, now))
  {
  }

  lemma CodeKeeps(cfg: Config, b: Books, req: CodeRequest, g: Grant)
    requires Sound(cfg, b) && NewTokens(b, g)
    ensures Sound(cfg, AfterCode(cfg, b, req, g).0)
  {
    RedeemedGrantable(cfg, b, req.code);
    if GrantError(cfg, req, b.codes, g.now) == None {
      var data := b.codes[req.code];
      GrantKeeps(cfg, Redeemed(b, req.code), req.code, Owner(data.clientId, data.userId, data.sessionId), data.scope,
                 g.now, g.accessToken, g.refreshToken);
    }
  }

  lemma PresentedGrantable(cfg: Config, b: Books, presented: string)
    requires Sound(cfg, b) && presented in b.refresh
    ensures presented in b.root && Grantable(cfg, Presented(cfg, b, presented), b.root[presented])
    ensures SameOwner(b.refresh[presented], b.issued[b.root[presented]])
  {
    SpentGrantable(cfg, b, presented);
  }

  lemma RefreshGrantKeeps(cfg: Config, b: Books, presented: string, scope: string, g: Grant)
    requires Sound(cfg, b) && NewTokens(b, g)
    ensures Sound(cfg, AfterRefresh(cfg, b, presented, scope, g).0)
  {
    if AfterRefresh(cfg, b, presented, scope, g).1.Success? {
      var data := b.refresh[presented];
      PresentedGrantable(cfg, b, presented);
      GrantKeeps(cfg, Presented(cfg, b, presented), b.root[presented],
                 Owner(data.clientId, data.userId, data.sessionId),
                 if scope != "" then scope else data.scope, g.now, g.accessToken, g.refreshToken);
    }
  }

  lemma StepKeeps(cfg: Config, b: Books, r: Request)
    requires Sound(cfg, b) && Fresh(b, r)
    ensures Sound(cfg, Step(cfg, b, r))
  {
    match r
    case Authorize(request, code, now) => AuthorizeKeeps(cfg, b, request, code, now);
    case CodeGrant(req, g) => CodeKeeps(cfg, b, req, g);
    case RefreshGrant(presented, scope, g) => RefreshGrantKeeps(cfg, b, presented, scope, g);
    case OtherAccess(_, _) =>
    case Revocation(_) =>
  }

  const NO_BOOKS := Books(map[], map[], map[], map[], {}, map[])

  ghost function Run(cfg: Config, requests: seq<Request>): Books {
    if |requests| == 0 then NO_BOOKS else Step(cfg, Run(cfg, requests[..|requests| - 1]), requests[|requests| - 1])
  }

  ghost predicate FreshRun(cfg: Config, requests: seq<Request>) {
    forall i :: 0 <= i < |requests| ==> Fresh(Run(cfg, requests[..i]), requests[i])
  }

  lemma FreshBefore(cfg: Config, requests: seq<Request>)
    requires FreshRun(cfg, requests) && |requests| > 0
    ensures var n := |requests| - 1;
            FreshRun(cfg, requests[..n]) && Fresh(Run(cfg, requests[..n]), requests[n])
  {
    var before := requests[..|requests| - 1];
    forall i | 0 <= i < |before|
      ensures Fresh(Run(cfg, before[..i]), before[i])
    {
      assert before[..i] == requests[..i];
    }
  }

  lemma {:induction false} RunKeeps(cfg: Config, requests: seq<Request>)
    requires FreshRun(cfg, requests)
    ensures Sound(cfg, Run(cfg, requests))
  {
    if |requests| > 0 {
      var before := requests[..|requests| - 1];
      FreshBefore(cfg, requests);
      RunKeeps(cfg, before);
      StepKeeps(cfg, Run(cfg, before), requests[|requests| - 1]);
    }
  }

  /**
   * After any run of requests: with rotation one authorization never has two refresh tokens in the store, and none
   * while its code is unredeemed; every stored token that descends from it bears its client, user and session.
   */
  lemma AtMostOneRefreshToken(cfg: Config, requests: seq<Request>, code: string)
    requires FreshRun(cfg, requests) && code in Run(cfg, requests).issued
    ensures var b := Run(cfg, requests);
            && var rp := cfg.findRP(b.issued[code].clientId);
            && (rp.Some? && rp.value.rotation ==> |Live(b, code)| <= 1)
            && (code in b.codes ==> Live(b, code) == {})
            && (forall t :: t in b.refresh && t in b.root && b.root[t] == code ==>
                SameOwner(b.refresh[t], b.issued[code]))
            && (forall t :: t in b.access && t in b.root && b.root[t] == code ==>
                SameOwner(b.access[t], b.issued[code]))
  {
    RunKeeps(cfg, requests);
    LiveBound(cfg, Run(cfg, requests), code);
  }

  // ---------------------------------------------------------------- what a grant leaves

  /**
   * A code grant succeeds exactly when its code is stored and not expired, it repeats the redirect URI and, if it names
   * a client, the client of the code, that client is known and confidential only with its secret, and a code challenge
   * is met: by the verifier itself for the method "plain", by its digest otherwise. Every complete attempt consumes the
   * code.
   */
  lemma CodeGrantExactly(cfg: Config, b: Books, req: CodeRequest, g: Grant)
    ensures var (after, response) := AfterCode(cfg, b, req, g);
            && after.codes == (if req.code == "" || req.redirectUri == "" then b.codes else b.codes - {req.code})
            && (response.Success? <==>
                  && req.code != "" && req.redirectUri != "" && req.code in b.codes
                  && var data := b.codes[req.code];
                  && g.now <= data.expiresAt && req.redirectUri == data.redirectUri
                  && (req.clientId == "" || req.clientId == data.clientId)
                  && var rp := cfg.findRP(data.clientId);
                  && rp.Some?
                  && (rp.value.isPublic || rp.value.clientSecret == "" || req.clientSecret == rp.value.clientSecret)
                  && (data.codeChallenge == "" ||
                      (req.codeVerifier != "" && (if data.codeChallengeMethod == "plain"
                                                  then req.codeVerifier == data.codeChallenge
                                                  else cfg.s256(req.codeVerifier) == data.codeChallenge))))
    ensures var response := AfterCode(cfg, b, req, g).1;
            && (response == Failure(InvalidRequest) <==> req.code == "" || req.redirectUri == "")
            && (response == Failure(InvalidClient) <==>
                  && req.code != "" && req.redirectUri != "" && req.code in b.codes
                  && var data := b.codes[req.code];
                  && g.now <= data.expiresAt && req.redirectUri == data.redirectUri
                  && (req.clientId == "" || req.clientId == data.clientId)
                  && var rp := cfg.findRP(data.clientId);
                  && (rp.Some? ==>
                        !rp.value.isPublic && rp.value.clientSecret != "" && req.clientSecret != rp.value.clientSecret))
  {
  }

  /** When a refresh token is given. */
  lemma OfflineExactly(cfg: Config, clientId: string, scope: string)
    ensures WantsRefresh(cfg, clientId, scope) <==>
            && "offline_access" in Text.Split(scope, ' ')
            && (cfg.findRP(clientId).Some? ==> cfg.findRP(clientId).value.allowOffline)
  {
  }

  /** What granting puts in the stores. */
  lemma GrantedStores(cfg: Config, b: Books, code: string, o: Owner, scope: string, now: int, accessToken: string,
                      refreshToken: string)
    ensures var after := Granted(cfg, b, code, o, scope, now, accessToken, refreshToken);
            && after.access == b.access[accessToken := TokenData(o.clientId, o.userId, o.sessionId, scope, now,
                                                                 now + cfg.accessTtl(o.clientId))]
            && after.refresh == if WantsRefresh(cfg, o.clientId, scope)
                                then b.refresh[refreshToken := TokenData(o.clientId, o.userId, o.sessionId, scope, now,
                                                                         now + cfg.refreshTtl(o.clientId))]
                                else b.refresh
  {
  }

  /** The tokens of a successful code grant are stored with the client, user, session and scope of the code. */
  lemma CodeGrantStores(cfg: Config, b: Books, req: CodeRequest, g: Grant)
    requires AfterCode(cfg, b, req, g).1.Success? && g.accessToken != g.refreshToken
    ensures req.code in b.codes
    ensures var (after, response) := AfterCode(cfg, b, req, g);
            var data, tokens := b.codes[req.code], response.tokens;
            && tokens.accessToken == g.accessToken && tokens.scope == data.scope
            && after.access == b.access[g.accessToken := TokenData(data.clientId, data.userId, data.sessionId,
                                                                   data.scope, g.now,
                                                                   g.now + cfg.accessTtl(data.clientId))]
            && (tokens.refreshToken.Some? ==>
                  && tokens.refreshToken.value == g.refreshToken
                  && after.refresh == b.refresh[g.refreshToken := TokenData(data.clientId, data.userId, data.sessionId,
                                                                            data.scope, g.now,
                                                                            g.now + cfg.refreshTtl(data.clientId))])
  {
    var data := b.codes[req.code];
    GrantedStores(cfg, Redeemed(b, req.code), req.code, Owner(data.clientId, data.userId, data.sessionId), data.scope,
                  g.now, g.accessToken, g.refreshToken);
  }

  /**
   * A successful code grant gives a refresh token for the scope "offline_access", unless the client forbids it, and
   * leaves it alone in the store for the code.
   */
  lemma CodeGrantLeaves(cfg: Config, b: Books, req: CodeRequest, g: Grant)
    requires Sound(cfg, b) && NewTokens(b, g) && AfterCode(cfg, b, req, g).1.Success?
    ensures req.code in b.codes
    ensures var (after, response) := AfterCode(cfg, b, req, g);
            var data, refreshToken := b.codes[req.code], response.tokens.refreshToken;
            && (refreshToken.Some? <==>
                  && "offline_access" in Text.Split(data.scope, ' ')
                  && (cfg.findRP(data.clientId).Some? ==> cfg.findRP(data.clientId).value.allowOffline))
            && Live(after, req.code) == (if refreshToken.Some? then {refreshToken.value} else {})
  {
    RedeemedGrantable(cfg, b, req.code);
    var data := b.codes[req.code];
    OfflineExactly(cfg, data.clientId, data.scope);
    GrantKeeps(cfg, Redeemed(b, req.code), req.code, Owner(data.clientId, data.userId, data.sessionId), data.scope,
               g.now, g.accessToken, g.refreshToken);
  }

  /** A refresh succeeds exactly with a stored token that is not expired, whatever scope is asked for; otherwise it
      changes nothing. */
  lemma RefreshGrantExactly(cfg: Config, b: Books, presented: string, scope: string, g: Grant)
    ensures var (after, response) := AfterRefresh(cfg, b, presented, scope, g);
            && (response.Success? <==>
                  presented != "" && presented in b.refresh && g.now <= b.refresh[presented].expiresAt)
            && (response == Failure(InvalidRequest) <==> presented == "")
            && (!response.Success? ==> after == b && response != Failure(InvalidClient))
  {
  }

  /** With rotation the presented token no longer lives. */
  lemma PresentedLeaves(cfg: Config, b: Books, presented: string)
    requires Sound(cfg, b) && presented in b.refresh
    ensures presented in b.root && b.root[presented] in b.issued
    ensures var code, rp := b.root[presented], cfg.findRP(b.refresh[presented].clientId);
            Live(Presented(cfg, b, presented), code) ==
            Live(b, code) - (if rp.Some? && rp.value.rotation then {presented} else {})
  {
    SpentGrantable(cfg, b, presented);
  }

  /**
   * A successful refresh replaces the presented token with rotation, and stores another beside it without; another is
   * given for the scope "offline_access", unless the client forbids it.
   */
  lemma RefreshGrantLeaves(cfg: Config, b: Books, presented: string, scope: string, g: Grant)
    requires Sound(cfg, b) && NewTokens(b, g) && AfterRefresh(cfg, b, presented, scope, g).1.Success?
    ensures presented in b.refresh && presented in b.root && b.root[presented] in b.issued
    ensures var (after, response) := AfterRefresh(cfg, b, presented, scope, g);
            var code, rp := b.root[presented], cfg.findRP(b.refresh[presented].clientId);
            && (response.tokens.refreshToken.Some? <==>
                  "offline_access" in Text.Split(response.tokens.scope, ' ') && (rp.Some? ==> rp.value.allowOffline))
            && Live(after, code) == Live(b, code) - (if rp.Some? && rp.value.rotation then {presented} else {})
                                    + (if response.tokens.refreshToken.Some? then {g.refreshToken} else {})
  {
    var data := b.refresh[presented];
    var newScope := if scope != "" then scope else data.scope;
    PresentedGrantable(cfg, b, presented);
    PresentedLeaves(cfg, b, presented);
    OfflineExactly(cfg, data.clientId, newScope);
    GrantKeeps(cfg, Presented(cfg, b, presented), b.root[presented], Owner(data.clientId, data.userId, data.sessionId),
               newScope, g.now, g.accessToken, g.refreshToken);
  }

  /** The tokens of a successful refresh, for the scope asked for or else that of the presented token, are stored with
      its client, user and session. */
  lemma RefreshStores(cfg: Config, b: Books, presented: string, scope: string, g: Grant)
    requires presented in b.refresh && NewTokens(b, g) && AfterRefresh(cfg, b, presented, scope, g).1.Success?
    ensures var (after, response) := AfterRefresh(cfg, b, presented, scope, g);
            var data, tokens := b.refresh[presented], response.tokens;
            && tokens.accessToken == g.accessToken && tokens.scope == (if scope != "" then scope else data.scope)
            && after.access == b.access[g.accessToken := TokenData(data.clientId, data.userId, data.sessionId,
                                                                   tokens.scope, g.now,
                                                                   g.now + cfg.accessTtl(data.clientId))]
            && (tokens.refreshToken.Some? ==>
                  && tokens.refreshToken.value == g.refreshToken && g.refreshToken in after.refresh
                  && after.refresh[g.refreshToken] ==
                     TokenData(data.clientId, data.userId, data.sessionId, tokens.scope, g.now,
                               g.now + cfg.refreshTtl(data.clientId)))
  {
    var data := b.refresh[presented];
    var o := Owner(data.clientId, data.userId, data.sessionId);
    var newScope := if scope != "" then scope else data.scope;
    GrantedStores(cfg, Presented(cfg, b, presented), if presented in b.root then b.root[presented] else "", o, newScope,
                  g.now, g.accessToken, g.refreshToken);
  }

  // ---------------------------------------------------------------- from the authorization to the grant

  /** A complete request for tokens with the code. */
  predicate Presents(r: Request, code: string) {
    r.CodeGrant? && r.req.code == code && r.req.redirectUri != ""
  }

  /** Only its own presentation touches a stored code. */
  lemma StepKeepsCode(cfg: Config, b: Books, r: Request, code: string)
    requires Fresh(b, r) && code in b.codes && code in b.issued && !Presents(r, code)
    ensures code in Step(cfg, b, r).codes && Step(cfg, b, r).codes[code] == b.codes[code]
  {
    if r.CodeGrant? {
      CodeGrantExactly(cfg, b, r.req, r.grant);
    }
  }

  /** The code is stored with the data. */
  ghost predicate Stored(b: Books, code: string, data: CodeData) {
    code in b.codes && b.codes[code] == data
  }

  lemma AuthorizeStores(cfg: Config, b: Books, request: CodeData, code: string, at: int)
    ensures Stored(Step(cfg, b, Authorize(request, code, at)), code, CodeDataFor(cfg, request, at))
  {
  }

  lemma StepKeepsStored(cfg: Config, b: Books, r: Request, code: string, data: CodeData)
    requires Sound(cfg, b) && Fresh(b, r) && Stored(b, code, data) && !Presents(r, code)
    ensures Stored(Step(cfg, b, r), code, data)
  {
    StepKeepsCode(cfg, b, r, code);
  }

  ghost predicate NonePresents(requests: seq<Request>, i: nat, code: string) {
    forall j :: i < j < |requests| ==> !Presents(requests[j], code)
  }

  /** One request of the run, on sound books. */
  lemma RunTo(cfg: Config, requests: seq<Request>, k: nat)
    requires FreshRun(cfg, requests) && k < |requests|
    ensures Run(cfg, requests[..k + 1]) == Step(cfg, Run(cfg, requests[..k]), requests[k])
    ensures Sound(cfg, Run(cfg, requests[..k])) && Fresh(Run(cfg, requests[..k]), requests[k])
  {
    assert requests[..k + 1][..k] == requests[..k];
    forall i | 0 <= i < k
      ensures Fresh(Run(cfg, requests[..k][..i]), requests[..k][i])
    {
      assert requests[..k][..i] == requests[..i];
    }
    RunKeeps(cfg, requests[..k]);
  }

  lemma KeptOnce(cfg: Config, requests: seq<Request>, k: nat, code: string, data: CodeData)
    requires FreshRun(cfg, requests) && k < |requests| && !Presents(requests[k], code)
    requires Stored(Run(cfg, requests[..k]), code, data)
    ensures Stored(Run(cfg, requests[..k + 1]), code, data)
  {
    RunTo(cfg, requests, k);
    StepKeepsStored(cfg, Run(cfg, requests[..k]), requests[k], code, data);
  }

  /** What is stored at one point of a run and kept by each step is stored later. */
  lemma {:induction false} KeptAlong(run: seq<Books>, i: nat, k: nat, code: string, data: CodeData)
    requires i <= k < |run| && Stored(run[i], code, data)
    requires forall j :: i <= j < k && Stored(run[j], code, data) ==> Stored(run[j + 1], code, data)
    ensures Stored(run[k], code, data)
  {
    if i < k {
      KeptAlong(run, i, k - 1, code, data);
    }
  }

  ghost function Prefixes(cfg: Config, requests: seq<Request>): (run: seq<Books>)
    ensures |run| == |requests| + 1 && forall k :: 0 <= k <= |requests| ==> run[k] == Run(cfg, requests[..k])
  {
    seq(|requests| + 1, k requires 0 <= k <= |requests| => Run(cfg, requests[..k]))
  }

  lemma KeptStored(cfg: Config, requests: seq<Request>, i: nat, code: string, data: CodeData)
    requires FreshRun(cfg, requests) && i < |requests| && NonePresents(requests, i, code)
    requires Stored(Run(cfg, requests[..i + 1]), code, data)
    ensures Stored(Run(cfg, requests), code, data)
  {
    var run := Prefixes(cfg, requests);
    forall k | i + 1 <= k < |requests| && Stored(run[k], code, data)
      ensures Stored(run[k + 1], code, data)
    {
      KeptOnce(cfg, requests, k, code, data);
    }
    KeptAlong(run, i + 1, |requests|, code, data);
    assert requests[..|requests|] == requests;
  }

  lemma StoredAtOnce(cfg: Config, requests: seq<Request>, i: nat, code: string, request: CodeData, at: int)
    requires i < |requests| && requests[i] == Authorize(request, code, at)
    ensures Stored(Run(cfg, requests[..i + 1]), code, CodeDataFor(cfg, request, at))
  {
    assert requests[..i + 1][..i] == requests[..i];
    AuthorizeStores(cfg, Run(cfg, requests[..i]), request, code, at);
  }

  /** A code issued in the run for `request` at `at` stays as it was stored until a request presents it. */
  lemma KeptUntilPresented(cfg: Config, requests: seq<Request>, i: nat, code: string, request: CodeData, at: int)
    requires FreshRun(cfg, requests) && i < |requests| && requests[i] == Authorize(request, code, at)
    requires forall j :: i < j < |requests| ==> !Presents(requests[j], code)
    ensures var b := Run(cfg, requests);
            && code in b.codes
            && b.codes[code] ==
               CodeData(request.clientId, request.redirectUri, if request.scope == "" then "openid" else request.scope,
                        request.userId, request.sessionId, request.nonce, request.codeChallenge,
                        request.codeChallengeMethod, at + cfg.codeTtl)
  {
    StoredAtOnce(cfg, requests, i, code, request, at);
    KeptStored(cfg, requests, i, code, CodeDataFor(cfg, request, at));
  }

  /**
   * The first complete request for a code issued earlier in the run, by `request` at `at`, succeeds exactly when it
   * comes within the lifetime of codes, repeats the redirect URI and, if it names one, the client of `request`, proves
   * the client's secret, and meets the code challenge of `request`.
   */
  lemma AuthorizeThenRedeem(cfg: Config, requests: seq<Request>, i: nat, code: string, request: CodeData, at: int,
                            req: CodeRequest, g: Grant)
    requires FreshRun(cfg, requests) && i < |requests| && requests[i] == Authorize(request, code, at)
    requires forall j :: i < j < |requests| ==> !Presents(requests[j], code)
    requires req.code == code && req.redirectUri != ""
    ensures AfterCode(cfg, Run(cfg, requests), req, g).1.Success? <==>
            && code != "" && g.now <= at + cfg.codeTtl && req.redirectUri == request.redirectUri
            && (req.clientId == "" || req.clientId == request.clientId)
            && var rp := cfg.findRP(request.clientId);
            && rp.Some?
            && (rp.value.isPublic || rp.value.clientSecret == "" || req.clientSecret == rp.value.clientSecret)
            && (request.codeChallenge == "" ||
                (req.codeVerifier != "" && (if request.codeChallengeMethod == "plain"
                                            then req.codeVerifier == request.codeChallenge
                                            else cfg.s256(req.codeVerifier) == request.codeChallenge)))
  {
    KeptUntilPresented(cfg, requests, i, code, request, at);
    CodeGrantExactly(cfg, Run(cfg, requests), req, g);
  }

  // ---------------------------------------------------------------- the provider

  class Provider {
    const config: Config
    const tokenStore: TokenStore

    ghost var issued: map<string, CodeData>
    ghost var used: set<string>
    ghost var root: map<string, string>

    ghost function State(): Books
      reads this, tokenStore
    {
      Books(tokenStore.authCodes, tokenStore.accessTokens, tokenStore.refreshTokens, issued, used, root)
    }

    ghost predicate Valid()
      reads this, tokenStore
    {
      Sound(config, State())
    }

    constructor (config: Config)
      ensures Valid() && this.config == config && fresh(tokenStore)
      ensures State() == NO_BOOKS
    {
      this.config := config;
      tokenStore := new TokenStore();
      issued, used, root := map[], {}, map[];
    }

    method GenerateAuthorizationCode(request: CodeData, code: string, now: int)
      requires Valid() && code !in issued
      modifies this, tokenStore
      ensures Valid() && State() == Authorized(config, old(State()), request, code, now)
    {
      AuthorizeKeeps(config, State(), request, code, now);
      var codeData := request.(scope := if request.scope == "" then "openid" else request.scope,
                               expiresAt := now + config.codeTtl);
      tokenStore.StoreAuthCode(code, codeData);
      issued := issued[code := codeData];
    }

    /** `generateTokens` for a holder whose authorization descends from `code`. */
    method GenerateTokens(clientId: string, userId: string, sessionId: string, scope: string, nonce: string, g: Grant,
                          ghost code: string)
      returns (tokens: Tokens)
      modifies this, tokenStore`accessTokens, tokenStore`refreshTokens
      ensures State() == Granted(config, old(State()), code, Owner(clientId, userId, sessionId), scope, g.now,
                                 g.accessToken, g.refreshToken)
      ensures tokens == TokensFor(config, clientId, userId, nonce, scope, g.session, g.accessToken, g.refreshToken)
    {
      tokenStore.StoreAccessToken(g.accessToken, AccessData(config, clientId, userId, sessionId, scope, g.now));
      used, root := used + {g.accessToken}, root[g.accessToken := code];
      var userClaims := GetUserClaims(config.exportedVars(clientId), g.session, scope);
      tokens := Tokens(g.accessToken, scope, OwnClaims(userId, clientId, nonce) + userClaims, None);
      if WantsRefresh(config, clientId, scope) {
        tokenStore.StoreRefreshToken(g.refreshToken, RefreshData(config, clientId, userId, sessionId, scope, g.now));
        used, root := used + {g.refreshToken}, root[g.refreshToken := code];
        tokens := tokens.(refreshToken := Some(g.refreshToken));
      }
    }

    /** `handleAuthorizationCodeGrant` */
    method HandleAuthorizationCodeGrant(req: CodeRequest, g: Grant) returns (response: TokenResponse)
      requires Valid() && NewTokens(State(), g)
      modifies this, tokenStore
      ensures Valid() && (State(), response) == AfterCode(config, old(State()), req, g)
    {
      CodeKeeps(config, State(), req, g);
      if req.code == "" {
        return Failure(InvalidRequest);
      }
      if req.redirectUri == "" {
        return Failure(InvalidRequest);
      }
      var codeData := tokenStore.ConsumeAuthCode(req.code);
      if codeData.None? {
        assert State() == Redeemed(old(State()), req.code);
        return Failure(InvalidGrant);
      }
      var data := codeData.value;
      var error := CodeError(config, req, data, g.now);
      if error.Some? {
        return Failure(error.value);
      }
      var tokens := GenerateTokens(data.clientId, data.userId, data.sessionId, data.scope, data.nonce, g, req.code);
      return Success(tokens);
    }

    /** `handleRefreshTokenGrant` */
    method HandleRefreshTokenGrant(presented: string, scope: string, g: Grant) returns (response: TokenResponse)
      requires Valid() && NewTokens(State(), g)
      modifies this, tokenStore
      ensures Valid() && (State(), response) == AfterRefresh(config, old(State()), presented, scope, g)
    {
      RefreshGrantKeeps(config, State(), presented, scope, g);
      if presented == "" {
        return Failure(InvalidRequest);
      }
      var found := tokenStore.GetRefreshToken(presented);
      if found.None? {
        return Failure(InvalidGrant);
      }
      var tokenData := found.value;
      if tokenData.expiresAt < g.now {
        return Failure(InvalidGrant);
      }
      var newScope := if scope != "" then scope else tokenData.scope;
      ghost var code := if presented in root then root[presented] else "";
      if Rotates(config, tokenData.clientId) {
        tokenStore.RevokeRefreshToken(presented);
        assert State() == Spent(old(State()), presented);
      }
      var tokens := GenerateTokens(tokenData.clientId, tokenData.userId, tokenData.sessionId, newScope, "", g, code);
      return Success(tokens);
    }

    /** What the client-credentials and implicit grants leave in the store: an access token of their own. */
    method StoreOtherAccessToken(token: string, data: TokenData)
      requires Valid() && token !in used
      modifies this, tokenStore
      ensures Valid() && State() == WithOther(old(State()), token, data)
    {
      StepKeeps(config, State(), OtherAccess(token, data));
      tokenStore.StoreAccessToken(token, data);
      used := used + {token};
    }

    /** `handleRevocationRequest`: the token is revoked in both stores, without looking at the hint. */
    method HandleRevocationRequest(token: string)
      requires Valid()
      modifies tokenStore
      ensures Valid() && State() == Revoked(old(State()), token)
    {
      StepKeeps(config, State(), Revocation(token));
      tokenStore.RevokeAccessToken(token);
      tokenStore.RevokeRefreshToken(token);
    }
  }
}
