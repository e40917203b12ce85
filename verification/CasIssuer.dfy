/**
 * The CAS issuer (packages/issuer-cas/src/issuer.ts): each handler, step by step, against what `CasSpec` says it does.
 */
module CasIssuer {
  import opened Wrappers
  import opened CasSpec
  import Text

  class Issuer {
    const config: Config

    var ticketStore: map<string, Ticket>
    var pgtIouStore: map<string, string>
    var appRegistrations: map<string, seq<Registration>>

    function State(): Stores
      reads this
    {
      Stores(ticketStore, pgtIouStore, appRegistrations)
    }

    constructor (config: Config)
      ensures this.config == config && State() == Stores(map[], map[], map[])
    {
      this.config := config;
      ticketStore, pgtIouStore, appRegistrations := map[], map[], map[];
    }

    method RegisterAppForSession(sessionId: string, reg: Registration)
      requires reg.sessionId == sessionId
      modifies `appRegistrations
      ensures appRegistrations == Register(old(appRegistrations), reg)
    {
      var existing := if sessionId in appRegistrations then appRegistrations[sessionId] else [];
      var found := false;
      for i := 0 to |existing|
        invariant found <==> reg.service in Services(existing)[..i]
      {
        assert Services(existing)[..i + 1] == Services(existing)[..i] + [existing[i].service];
        if existing[i].service == reg.service {
          found := true;
        }
      }
      assert Services(existing)[..|existing|] == Services(existing);
      if !found {
        appRegistrations := appRegistrations[sessionId := existing + [reg]];
      }
    }

    method HandleLogin(req: LoginRequest, session: PortalSession, part: RandomPart, now: nat)
      returns (result: LoginResult)
      modifies this
      ensures (State(), result) == Login(config, old(State()), req, session, part, now)
    {
      if req.service == "" {
        return LoginError(InvalidRequest);
      }
      var app := config.findApp(req.service);
      if app.None? {
        if config.policy == ErrorPolicy {
          return LoginError(InvalidService);
        }
        if config.policy == FakeTicketPolicy {
          var fakeTicket := FAKE_PREFIX + Text.Decimal(now);
          return Redirect(RedirectUrl(req.service, fakeTicket));
        }
      }
      if app.Some? {
        var requiredLevel := app.value.authnLevel;
        if requiredLevel != 0 && session.authnLevel < requiredLevel {
          return Upgrade(requiredLevel);
        }
      }
      if req.gateway && session.user == "" {
        return Gateway(req.service);
      }
      var ticket := "ST-" + part;
      ticketStore := ticketStore[ticket := Ticket(ticket, ST, req.service, session.user, session.id,
                                                  now, now + config.ttlST, req.renew, [], None)];
      if app.Some? {
        RegisterAppForSession(session.id, Registration(app.value.confKey, req.service, session.id, ticket));
      }
      result := Redirect(RedirectUrl(req.service, ticket));
    }

    method SendLogoutRequests(apps: seq<Registration>) returns (notified: seq<string>)
      ensures notified == Notified(config, apps)
    {
      notified := [];
      if !config.hasHttpClient {
        return;
      }
      for i := 0 to |apps|
        invariant notified + Notified(config, apps[i..]) == Notified(config, apps)
      {
        if config.logoutOn(apps[i].confKey) {
          notified := notified + [apps[i].service];
        }
        assert apps[i..][1..] == apps[i + 1..];
      }
    }

    method HandleLogout(sessionId: string) returns (notified: seq<string>)
      modifies this
      ensures (State(), notified) == Logout(config, old(State()), sessionId)
    {
      var apps := if sessionId in appRegistrations then appRegistrations[sessionId] else [];
      notified := [];
      if |apps| > 0 {
        notified := SendLogoutRequests(apps);
        appRegistrations := appRegistrations - {sessionId};
      }
    }

    /** CAS 1.0 `validate`: the user on success, nothing otherwise. */
    method HandleValidate(service: string, ticket: string, renew: bool, now: int) returns (user: Option<string>)
      modifies this
      ensures var (s, reply) := Redeem(config, old(State()), Validate, RedeemRequest(ticket, service, renew, NoPgt),
                                       now);
              State() == s && user == match reply case Accepted(u, _, _) => Some(u) case Rejected(_) => None
    {
      if service == "" || ticket == "" {
        return None;
      }
      if !HasFormat(ticket, ST) {
        return None;
      }
      if ticket !in ticketStore {
        return None;
      }
      var ticketData := ticketStore[ticket];
      ticketStore := ticketStore - {ticket};
      if now > ticketData.expiresAt {
        return None;
      }
      if !ServiceMatches(ticketData.service, service) {
        return None;
      }
      if renew && !ticketData.renew {
        return None;
      }
      return Some(ticketData.userId);
    }

    /** CAS 2.0 and 3.0 `serviceValidate` */
    method HandleServiceValidate(service: string, ticket: string, renew: bool, pgt: PgtRequest, now: int)
      returns (reply: Reply)
      modifies this
      ensures (State(), reply) ==
              Redeem(config, old(State()), ServiceValidate, RedeemRequest(ticket, service, renew, pgt), now)
    {
      if service == "" || ticket == "" {
        return Rejected(InvalidRequest);
      }
      if !HasFormat(ticket, ST) {
        return Rejected(InvalidTicketSpec);
      }
      if ticket !in ticketStore {
        return Rejected(InvalidTicket);
      }
      var ticketData := ticketStore[ticket];
      ticketStore := ticketStore - {ticket};
      if now > ticketData.expiresAt {
        return Rejected(InvalidTicket);
      }
      if !ServiceMatches(ticketData.service, service) {
        return Rejected(InvalidService);
      }
      if renew && !ticketData.renew {
        return Rejected(InvalidTicket);
      }
      var app := config.findApp(service);
      var pgtIou: Option<string> := None;
      if pgt.PgtUrl? && pgt.url != "" && app.Some? && app.value.allowProxy {
        pgtIou := IssuePGT(ticketData, pgt, now);
      }
      return Accepted(ticketData.userId, pgtIou, []);
    }

    /** CAS 2.0 and 3.0 `proxyValidate`: service and proxy tickets, and no renew check */
    method HandleProxyValidate(service: string, ticket: string, pgt: PgtRequest, now: int) returns (reply: Reply)
      modifies this
      ensures forall renew :: (State(), reply) ==
                Redeem(config, old(State()), ProxyValidate, RedeemRequest(ticket, service, renew, pgt), now)
    {
      if service == "" || ticket == "" {
        return Rejected(InvalidRequest);
      }
      var ticketType := if "ST-" <= ticket then Some(ST) else if "PT-" <= ticket then Some(PT) else None;
      if ticketType.None? {
        return Rejected(InvalidTicketSpec);
      }
      if ticket !in ticketStore {
        return Rejected(InvalidTicket);
      }
      var ticketData := ticketStore[ticket];
      ticketStore := ticketStore - {ticket};
      if now > ticketData.expiresAt {
        return Rejected(InvalidTicket);
      }
      if !ServiceMatches(ticketData.service, service) {
        return Rejected(InvalidService);
      }
      var app := config.findApp(service);
      var pgtIou: Option<string> := None;
      if pgt.PgtUrl? && pgt.url != "" && app.Some? && app.value.allowProxy {
        pgtIou := IssuePGT(ticketData, pgt, now);
      }
      return Accepted(ticketData.userId, pgtIou, ticketData.proxies);
    }

    /** `samlValidate`; `ticket` is the artifact of the parsed request, empty when there is none */
    method HandleSamlValidate(service: string, ticket: string, now: int) returns (reply: Reply)
      modifies this
      ensures forall renew, pgt :: (State(), reply) ==
                Redeem(config, old(State()), SamlValidate, RedeemRequest(ticket, service, renew, pgt), now)
    {
      if ticket == "" {
        return Rejected(InvalidRequest);
      }
      if !HasFormat(ticket, ST) {
        return Rejected(InvalidTicketSpec);
      }
      if ticket !in ticketStore {
        return Rejected(InvalidTicket);
      }
      var ticketData := ticketStore[ticket];
      ticketStore := ticketStore - {ticket};
      if now > ticketData.expiresAt {
        return Rejected(InvalidTicket);
      }
      if !ServiceMatches(ticketData.service, service) {
        return Rejected(InvalidService);
      }
      return Accepted(ticketData.userId, None, []);
    }

    method IssuePGT(ticketData: Ticket, pgt: PgtRequest, now: int) returns (pgtIou: Option<string>)
      modifies `ticketStore, `pgtIouStore
      ensures (State(), pgtIou) == IssuePgt(config, old(State()), ticketData, pgt, now)
    {
      if pgt.NoPgt? || !config.hasHttpClient || !config.hasIouStore {
        return None;
      }
      if !("https://" <= pgt.url) {
        return None;
      }
      var id := "PGT-" + pgt.pgtPart;
      var iou := IouOf(pgt.iouPart);
      ticketStore := ticketStore[id := Ticket(id, PGT, ticketData.service, ticketData.userId, ticketData.sessionId,
                                              now, now + config.ttlPGT, false, [], None)];
      pgtIouStore := pgtIouStore[iou := id];
      match pgt.callback
      case Status(code) =>
        if 200 <= code < 300 {
          return Some(iou);
        }
        ticketStore := ticketStore - {id};
        pgtIouStore := pgtIouStore - {iou};
        return None;
      case Threw =>
        ticketStore := ticketStore - {id};
        pgtIouStore := pgtIouStore - {iou};
        return None;
    }

    method HandleProxy(pgt: string, targetService: string, part: RandomPart, now: int) returns (reply: ProxyReply)
      modifies this
      ensures (State(), reply) == Proxy(config, old(State()), pgt, targetService, part, now)
    {
      if pgt == "" || targetService == "" {
        return ProxyRejected(InvalidRequest);
      }
      if pgt !in ticketStore || ticketStore[pgt].kind != PGT {
        return ProxyRejected(InvalidTicket);
      }
      var pgtData := ticketStore[pgt];
      if now > pgtData.expiresAt {
        return ProxyRejected(InvalidTicket);
      }
      var app := config.findApp(targetService);
      if app.Some? && !app.value.allowProxy {
        return ProxyRejected(UnauthorizedServiceProxy);
      }
      var pt := "PT-" + part;
      ticketStore := ticketStore[pt := Ticket(pt, PT, targetService, pgtData.userId, pgtData.sessionId,
                                              now, now + config.ttlPT, false,
                                              pgtData.proxies + [pgtData.service], Some(pgt))];
      return ProxyIssued(pt);
    }
  }
}
