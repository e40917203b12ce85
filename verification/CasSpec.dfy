/**
 * What each handler of the CAS issuer does to the stores (packages/issuer-cas/src/issuer.ts), with the ticket formats
 * (packages/lib-cas/src/ticket.ts).
 */
module CasSpec {
  import opened Wrappers
  import Text

  datatype TicketType = ST | PT | PGT

  function Prefix(kind: TicketType): string {
    match kind
    case ST => "ST-"
    case PT => "PT-"
    case PGT => "PGT-"
  }

  predicate IsHexOrDash(c: char) {
    '0' <= c <= '9' || 'a' <= c <= 'f' || c == '-'
  }

  /** The random part of a ticket: 36 characters in `[a-f0-9-]`. */
  predicate IsRandomPart(s: string) {
    |s| == 36 && forall i :: 0 <= i < |s| ==> IsHexOrDash(s[i])
  }

  type RandomPart = s: string | IsRandomPart(s) witness "00000000-0000-0000-0000-000000000000"

  /** `isValidTicketFormat(ticket, kind)` */
  predicate HasFormat(ticket: string, kind: TicketType) {
    Prefix(kind) <= ticket && IsRandomPart(ticket[|Prefix(kind)|..])
  }

  const FAKE_PREFIX := "ST-fake-"

  datatype Ticket = Ticket(id: string, kind: TicketType, service: string, userId: string, sessionId: string,
                           createdAt: int, expiresAt: int, renew: bool, proxies: seq<string>, pgtId: Option<string>)

  datatype Registration = Registration(confKey: string, service: string, sessionId: string, ticketId: string)

  /** The ticket store, the IOU store and the applications registered for logout, by session. */
  datatype Stores = Stores(tickets: map<string, Ticket>, ious: map<string, string>,
                           apps: map<string, seq<Registration>>)

  datatype App = App(confKey: string, authnLevel: nat, allowProxy: bool)

  datatype Policy = ErrorPolicy | FakeTicketPolicy | NoPolicy

  datatype Config = Config(findApp: string -> Option<App>, logoutOn: string -> bool, policy: Policy,
                           ttlST: nat, ttlPT: nat, ttlPGT: nat, hasHttpClient: bool, hasIouStore: bool)

  datatype PortalSession = PortalSession(id: string, user: string, authnLevel: nat)

  datatype ErrorCode = InvalidRequest | InvalidTicketSpec | InvalidTicket | InvalidService | UnauthorizedServiceProxy

  datatype LoginRequest = LoginRequest(service: string, renew: bool, gateway: bool)

  datatype LoginResult =
    | LoginError(code: ErrorCode)
    | Upgrade(level: nat)
    | Gateway(url: string)
    | Redirect(url: string)

  datatype Endpoint = Validate | ServiceValidate | ProxyValidate | SamlValidate

  /** How the HTTP client answered the callback with the new PGT. */
  datatype Callback = Status(code: int) | Threw

  datatype PgtRequest = NoPgt | PgtUrl(url: string, pgtPart: RandomPart, iouPart: RandomPart, callback: Callback)

  datatype RedeemRequest = RedeemRequest(ticket: string, service: string, renew: bool, pgt: PgtRequest)

  datatype Reply = Accepted(user: string, pgtIou: Option<string>, proxies: seq<string>) | Rejected(code: ErrorCode)

  datatype ProxyReply = ProxyIssued(ticket: string) | ProxyRejected(code: ErrorCode)

  function IouOf(part: RandomPart): string {
    "PGTIOU-" + part
  }

  function WithoutSlash(url: string): string {
    if |url| > 0 && url[|url| - 1] == '/' then url[..|url| - 1] else url
  }

  predicate ServiceMatches(expected: string, actual: string) {
    WithoutSlash(expected) == WithoutSlash(actual)
  }

  function RedirectUrl(service: string, ticket: string): string {
    service + (if '?' in service then "&" else "?") + "ticket=" + ticket
  }

  // ---------------------------------------------------------------- login and logout

  /** The login gets past every check and issues a real service ticket. */
  predicate IssuesTicket(cfg: Config, req: LoginRequest, session: PortalSession) {
    var app := cfg.findApp(req.service);
    && req.service != ""
    && (app.None? ==> cfg.policy == NoPolicy)
    && (app.Some? ==> session.authnLevel >= app.value.authnLevel)
    && !(req.gateway && session.user == "")
  }

  function ServiceTicket(cfg: Config, req: LoginRequest, session: PortalSession, part: RandomPart, now: int): Ticket {
    Ticket("ST-" + part, ST, req.service, session.user, session.id, now, now + cfg.ttlST, req.renew, [], None)
  }

  function Services(regs: seq<Registration>): (services: seq<string>)
    ensures |services| == |regs|
  {
    seq(|regs|, i requires 0 <= i < |regs| => regs[i].service)
  }

  function Registered(apps: map<string, seq<Registration>>, sessionId: string): seq<Registration> {
    if sessionId in apps then apps[sessionId] else []
  }

  function Register(apps: map<string, seq<Registration>>, reg: Registration): map<string, seq<Registration>> {
    var existing := Registered(apps, reg.sessionId);
    if reg.service in Services(existing) then apps else apps[reg.sessionId := existing + [reg]]
  }

  function Login(cfg: Config, s: Stores, req: LoginRequest, session: PortalSession, part: RandomPart, now: nat)
    : (Stores, LoginResult)
  {
    var app := cfg.findApp(req.service);
    if req.service == "" then (s, LoginError(InvalidRequest))
    else if app.None? && cfg.policy == ErrorPolicy then (s, LoginError(InvalidService))
    else if app.None? && cfg.policy == FakeTicketPolicy then
      (s, Redirect(RedirectUrl(req.service, FAKE_PREFIX + Text.Decimal(now))))
    else if app.Some? && session.authnLevel < app.value.authnLevel then (s, Upgrade(app.value.authnLevel))
    else if req.gateway && session.user == "" then (s, Gateway(req.service))
    else
      var t := ServiceTicket(cfg, req, session, part, now);
      var apps := if app.Some?
                  then Register(s.apps, Registration(app.value.confKey, req.service, session.id, t.id))
                  else s.apps;
      (s.(tickets := s.tickets[t.id := t], apps := apps), Redirect(RedirectUrl(req.service, t.id)))
  }

  /** The services notified for single logout, in order of registration. */
  function Notified(cfg: Config, regs: seq<Registration>): seq<string> {
    if |regs| == 0 || !cfg.hasHttpClient then []
    else (if cfg.logoutOn(regs[0].confKey) then [regs[0].service] else []) + Notified(cfg, regs[1..])
  }

  function Logout(cfg: Config, s: Stores, sessionId: string): (Stores, seq<string>) {
    var regs := Registered(s.apps, sessionId);
    if |regs| == 0 then (s, [])
    else (s.(apps := s.apps - {sessionId}), Notified(cfg, regs))
  }

  // ---------------------------------------------------------------- validation and proxying

  predicate Recognised(endpoint: Endpoint, ticket: string) {
    if endpoint == ProxyValidate then "ST-" <= ticket || "PT-" <= ticket else HasFormat(ticket, ST)
  }

  predicate Complete(endpoint: Endpoint, req: RedeemRequest) {
    req.ticket != "" && (endpoint != SamlValidate ==> req.service != "")
  }

  /** A stored ticket that satisfies the request. */
  predicate Honours(t: Ticket, endpoint: Endpoint, req: RedeemRequest, now: int) {
    && now <= t.expiresAt
    && ServiceMatches(t.service, req.service)
    && ((endpoint == Validate || endpoint == ServiceValidate) && req.renew ==> t.renew)
  }

  predicate WantsPgt(cfg: Config, endpoint: Endpoint, req: RedeemRequest) {
    && (endpoint == ServiceValidate || endpoint == ProxyValidate)
    && req.pgt.PgtUrl? && req.pgt.url != ""
    && cfg.findApp(req.service).Some? && cfg.findApp(req.service).value.allowProxy
  }

  predicate CanIssuePgt(cfg: Config, pgt: PgtRequest) {
    pgt.PgtUrl? && cfg.hasHttpClient && cfg.hasIouStore && "https://" <= pgt.url
  }

  predicate Delivered(callback: Callback) {
    callback.Status? && 200 <= callback.code < 300
  }

  function PgtFor(cfg: Config, from: Ticket, part: RandomPart, now: int): Ticket {
    Ticket("PGT-" + part, PGT, from.service, from.userId, from.sessionId, now, now + cfg.ttlPGT, false, [], None)
  }

  /** `issuePGT`: both stores gain the pair, and lose it again when the callback fails. */
  function IssuePgt(cfg: Config, s: Stores, from: Ticket, pgt: PgtRequest, now: int): (Stores, Option<string>) {
    if !CanIssuePgt(cfg, pgt) then (s, None)
    else
      var t := PgtFor(cfg, from, pgt.pgtPart, now);
      var iou := IouOf(pgt.iouPart);
      var stored := s.(tickets := s.tickets[t.id := t], ious := s.ious[iou := t.id]);
      if Delivered(pgt.callback) then (stored, Some(iou))
      else (stored.(tickets := stored.tickets - {t.id}, ious := stored.ious - {iou}), None)
  }

  /** What is decided about a ticket that was found and removed. */
  function Decide(cfg: Config, spent: Stores, t: Ticket, endpoint: Endpoint, req: RedeemRequest, now: int)
    : (Stores, Reply)
  {
    if now > t.expiresAt then (spent, Rejected(InvalidTicket))
    else if !ServiceMatches(t.service, req.service) then (spent, Rejected(InvalidService))
    else if !Honours(t, endpoint, req, now) then (spent, Rejected(InvalidTicket))
    else
      var (after, iou) := if WantsPgt(cfg, endpoint, req) then IssuePgt(cfg, spent, t, req.pgt, now) else (spent, None);
      (after, Accepted(t.userId, iou, if endpoint == ProxyValidate then t.proxies else []))
  }

  /** The four validation endpoints: a recognised ticket is consumed whatever is decided about it. */
  function Redeem(cfg: Config, s: Stores, endpoint: Endpoint, req: RedeemRequest, now: int): (Stores, Reply) {
    if !Complete(endpoint, req) then (s, Rejected(InvalidRequest))
    else if !Recognised(endpoint, req.ticket) then (s, Rejected(InvalidTicketSpec))
    else if req.ticket !in s.tickets then (s, Rejected(InvalidTicket))
    else Decide(cfg, s.(tickets := s.tickets - {req.ticket}), s.tickets[req.ticket], endpoint, req, now)
  }

  function ProxyTicket(cfg: Config, pgt: Ticket, pgtId: string, target: string, part: RandomPart, now: int): Ticket {
    Ticket("PT-" + part, PT, target, pgt.userId, pgt.sessionId, now, now + cfg.ttlPT, false,
           pgt.proxies + [pgt.service], Some(pgtId))
  }

  function Proxy(cfg: Config, s: Stores, pgt: string, target: string, part: RandomPart, now: int)
    : (Stores, ProxyReply)
  {
    if pgt == "" || target == "" then (s, ProxyRejected(InvalidRequest))
    else if pgt !in s.tickets || s.tickets[pgt].kind != PGT then (s, ProxyRejected(InvalidTicket))
    else if now > s.tickets[pgt].expiresAt then (s, ProxyRejected(InvalidTicket))
    else if cfg.findApp(target).Some? && !cfg.findApp(target).value.allowProxy then
      (s, ProxyRejected(UnauthorizedServiceProxy))
    else
      var t := ProxyTicket(cfg, s.tickets[pgt], pgt, target, part, now);
      (s.(tickets := s.tickets[t.id := t]), ProxyIssued(t.id))
  }
}
