/**
 * What the grants of the OpenID Connect provider check, store and hand out (packages/issuer-oidc/src/provider.ts), with
 * PKCE (packages/lib-oidc/src/crypto.ts).
 */
module OidcGrants {
  import opened Wrappers
  import Text
  import opened OidcClaims

  /** Optional strings of the source are empty here: it treats both alike. */
  datatype CodeData = CodeData(clientId: string, redirectUri: string, scope: string, userId: string, sessionId: string,
                               nonce: string, codeChallenge: string, codeChallengeMethod: string, expiresAt: int)

  datatype TokenData = TokenData(clientId: string, userId: string, sessionId: string, scope: string,
                                 createdAt: int, expiresAt: int)

  datatype CodeRequest = CodeRequest(code: string, redirectUri: string, clientId: string, clientSecret: string,
                                     codeVerifier: string)

  /** `allowOffline` is false only when the option is explicitly false. */
  datatype RelyingParty = RelyingParty(isPublic: bool, clientSecret: string, rotation: bool, allowOffline: bool)

  /** `s256` is the base64url form of the SHA-256 digest. */
  datatype Config = Config(findRP: string -> Option<RelyingParty>, exportedVars: string -> Variables,
                           s256: string -> string, accessTtl: string -> nat, refreshTtl: string -> nat, codeTtl: nat)

  datatype Error = InvalidRequest | InvalidGrant | InvalidClient

  /** `idToken` holds the claims of the ID token. */
  datatype Tokens = Tokens(accessToken: string, scope: string, idToken: Attributes, refreshToken: Option<string>)

  datatype TokenResponse = Success(tokens: Tokens) | Failure(error: Error)

  // ---------------------------------------------------------------- PKCE

  function CodeChallenge(cfg: Config, verifier: string, challengeMethod: string): string {
    if challengeMethod == "plain" then verifier else cfg.s256(verifier)
  }

  /** A challenge, when there is one, is met by the verifier presented. */
  predicate ProvesKey(cfg: Config, data: CodeData, verifier: string) {
    data.codeChallenge != "" ==>
      verifier != "" && data.codeChallenge == CodeChallenge(cfg, verifier, data.codeChallengeMethod)
  }

  // ---------------------------------------------------------------- checks and stored data

  predicate Authenticates(rp: RelyingParty, secret: string) {
    !rp.isPublic && rp.clientSecret != "" ==> secret == rp.clientSecret
  }

  /** The checks made on the data of a consumed code, in the order of the source. */
  function CodeError(cfg: Config, req: CodeRequest, data: CodeData, now: int): Option<Error> {
    var rp := cfg.findRP(data.clientId);
    if data.expiresAt < now then Some(InvalidGrant)
    else if data.redirectUri != req.redirectUri then Some(InvalidGrant)
    else if req.clientId != "" && data.clientId != req.clientId then Some(InvalidGrant)
    else if rp.None? then Some(InvalidClient)
    else if !Authenticates(rp.value, req.clientSecret) then Some(InvalidClient)
    else if !ProvesKey(cfg, data, req.codeVerifier) then Some(InvalidGrant)
    else None
  }

  /** Why a token request fails, when it does. */
  function GrantError(cfg: Config, req: CodeRequest, codes: map<string, CodeData>, now: int): Option<Error> {
    if req.code == "" || req.redirectUri == "" then Some(InvalidRequest)
    else if req.code !in codes then Some(InvalidGrant)
    else CodeError(cfg, req, codes[req.code], now)
  }

  function AccessData(cfg: Config, clientId: string, userId: string, sessionId: string, scope: string, now: int)
    : TokenData
  {
    TokenData(clientId, userId, sessionId, scope, now, now + cfg.accessTtl(clientId))
  }

  function RefreshData(cfg: Config, clientId: string, userId: string, sessionId: string, scope: string, now: int)
    : TokenData
  {
    TokenData(clientId, userId, sessionId, scope, now, now + cfg.refreshTtl(clientId))
  }

  predicate WantsRefresh(cfg: Config, clientId: string, scope: string) {
    && "offline_access" in Text.Split(scope, ' ')
    && (cfg.findRP(clientId).Some? ==> cfg.findRP(clientId).value.allowOffline)
  }

  predicate Rotates(cfg: Config, clientId: string) {
    cfg.findRP(clientId).Some? && cfg.findRP(clientId).value.rotation
  }

  /** The claims of the ID token of a grant, with the session as it is read during the grant. */
  function IdTokenFor(cfg: Config, clientId: string, userId: string, nonce: string, scope: string, session: Attributes)
    : Attributes
  {
    IdToken(OwnClaims(userId, clientId, nonce), cfg.exportedVars(clientId), session, scope)
  }

  /** What a grant hands out. */
  function TokensFor(cfg: Config, clientId: string, userId: string, nonce: string, scope: string, session: Attributes,
                     accessToken: string, refreshToken: string): Tokens
  {
    Tokens(accessToken, scope, IdTokenFor(cfg, clientId, userId, nonce, scope, session),
           if WantsRefresh(cfg, clientId, scope) then Some(refreshToken) else None)
  }

  /** `consumeAuthCode`: lookup and deletion in one synchronous body. */
  function Consume(codes: map<string, CodeData>, code: string): (map<string, CodeData>, Option<CodeData>) {
    if code in codes then (codes - {code}, Some(codes[code])) else (codes, None)
  }
}
