/**
 * The decisions of the CAS issuer in full (packages/issuer-cas/src/issuer.ts): for every request the answer and the new
 * stores, in terms of the request, the configuration and the stored ticket.
 */
module CasDecisions {
  import opened Wrappers
  import opened CasSpec
  import opened CasRuns
  import Text

  /** The characters of the random part of a ticket. */
  lemma HexOrDash(c: char)
    ensures IsHexOrDash(c) <==> c in "0123456789abcdef-"
  {
    var all := "0123456789abcdef-";
    if '0' <= c <= '9' {
      assert all[(c - '0') as int] == c;
    } else if 'a' <= c <= 'f' {
      assert all[10 + (c - 'a') as int] == c;
    } else if c == '-' {
      assert all[16] == c;
    }
  }

  lemma ServiceFormat(ticket: string)
    ensures HasFormat(ticket, ST) <==>
            |ticket| == 39 && "ST-" <= ticket && forall i :: 3 <= i < 39 ==> ticket[i] in "0123456789abcdef-"
  {
    if |ticket| == 39 && "ST-" <= ticket {
      forall i | 3 <= i < 39
        ensures ticket[i] == ticket[3..][i - 3] && (IsHexOrDash(ticket[i]) <==> ticket[i] in "0123456789abcdef-")
      {
        HexOrDash(ticket[i]);
      }
    }
  }

  // ---------------------------------------------------------------- login

  /** Every login, from the first check to the redirection. */
  lemma LoginDecided(cfg: Config, s: Stores, req: LoginRequest, session: PortalSession, part: RandomPart, now: nat)
    ensures var (after, result) := Login(cfg, s, req, session, part, now);
            var app, separator := cfg.findApp(req.service), if '?' in req.service then "&" else "?";
            if req.service == "" then after == s && result == LoginError(InvalidRequest)
            else if app.None? && cfg.policy == ErrorPolicy then after == s && result == LoginError(InvalidService)
            else if app.None? && cfg.policy == FakeTicketPolicy then
              after == s && result == Redirect(req.service + separator + "ticket=" + ("ST-fake-" + Text.Decimal(now)))
            else if app.Some? && session.authnLevel < app.value.authnLevel then
              after == s && result == Upgrade(app.value.authnLevel)
            else if req.gateway && session.user == "" then after == s && result == Gateway(req.service)
            else
              && result == Redirect(req.service + separator + "ticket=" + ("ST-" + part))
              && "ST-" + part in after.tickets
              && (var t := after.tickets["ST-" + part];
                  && t.kind == ST && t.service == req.service && t.userId == session.user && t.sessionId == session.id
                  && t.renew == req.renew && t.expiresAt == now + cfg.ttlST)
              && (app.None? ==> after.apps == s.apps)
  {
  }

  // ---------------------------------------------------------------- validation

  /** A request that names no stored ticket is refused and changes nothing. */
  lemma NothingRedeemed(cfg: Config, s: Stores, endpoint: Endpoint, req: RedeemRequest, now: int)
    ensures var missing := req.ticket == "" || (endpoint != SamlValidate && req.service == "");
            var formed := if endpoint == ProxyValidate then "ST-" <= req.ticket || "PT-" <= req.ticket
                          else && |req.ticket| == 39 && "ST-" <= req.ticket
                               && forall i :: 3 <= i < 39 ==> req.ticket[i] in "0123456789abcdef-";
            && (missing ==> Redeem(cfg, s, endpoint, req, now) == (s, Rejected(InvalidRequest)))
            && (!missing && !formed ==> Redeem(cfg, s, endpoint, req, now) == (s, Rejected(InvalidTicketSpec)))
            && (!missing && formed && req.ticket !in s.tickets ==>
                  Redeem(cfg, s, endpoint, req, now) == (s, Rejected(InvalidTicket)))
            && (!missing && formed && req.ticket in s.tickets ==>
                  Redeem(cfg, s, endpoint, req, now) ==
                  Decide(cfg, s.(tickets := s.tickets - {req.ticket}), s.tickets[req.ticket], endpoint, req, now))
  {
    ServiceFormat(req.ticket);
  }

  /** A stored ticket, which is gone in any case: expiry first, then the service, then the renewal. */
  lemma TicketDecided(cfg: Config, spent: Stores, t: Ticket, endpoint: Endpoint, req: RedeemRequest, now: int)
    ensures var (after, reply) := Decide(cfg, spent, t, endpoint, req, now);
            var a, b := t.service, req.service;
            var same := || a == b
                        || (a == b + "/" && (b == "" || b[|b| - 1] != '/'))
                        || (b == a + "/" && (a == "" || a[|a| - 1] != '/'));
            if now > t.expiresAt then after == spent && reply == Rejected(InvalidTicket)
            else if !same then after == spent && reply == Rejected(InvalidService)
            else if (endpoint == Validate || endpoint == ServiceValidate) && req.renew && !t.renew then
              after == spent && reply == Rejected(InvalidTicket)
            else
              && reply.Accepted? && reply.user == t.userId
              && reply.proxies == (if endpoint == ProxyValidate then t.proxies else [])
  {
    SameService(t.service, req.service);
  }

  /** An accepted ticket brings a PGT exactly under these conditions; the stores gain the pair and nothing else. */
  lemma PgtDecided(cfg: Config, spent: Stores, t: Ticket, endpoint: Endpoint, req: RedeemRequest, now: int)
    requires Decide(cfg, spent, t, endpoint, req, now).1.Accepted?
    requires req.pgt.PgtUrl? ==> "PGT-" + req.pgt.pgtPart !in spent.tickets && IouOf(req.pgt.iouPart) !in spent.ious
    ensures var (after, reply) := Decide(cfg, spent, t, endpoint, req, now);
            && (reply.pgtIou.Some? <==>
                && (endpoint == ServiceValidate || endpoint == ProxyValidate)
                && req.pgt.PgtUrl? && "https://" <= req.pgt.url
                && cfg.findApp(req.service).Some? && cfg.findApp(req.service).value.allowProxy
                && cfg.hasHttpClient && cfg.hasIouStore
                && req.pgt.callback.Status? && 200 <= req.pgt.callback.code <= 299)
            && (reply.pgtIou.None? ==> after == spent)
            && (reply.pgtIou.Some? ==>
                  var iou, id := "PGTIOU-" + req.pgt.iouPart, "PGT-" + req.pgt.pgtPart;
                  && reply.pgtIou.value == iou
                  && after.ious == spent.ious[iou := id] && id in after.tickets
                  && after.tickets == spent.tickets[id := after.tickets[id]] && after.apps == spent.apps
                  && (var pgt := after.tickets[id];
                      && pgt.kind == PGT && pgt.service == t.service && pgt.userId == t.userId
                      && pgt.sessionId == t.sessionId && pgt.expiresAt == now + cfg.ttlPGT && pgt.proxies == []))
  {
    if WantsPgt(cfg, endpoint, req) && CanIssuePgt(cfg, req.pgt) && !Delivered(req.pgt.callback) {
      PgtUndone(cfg, spent, t, req.pgt, now);
    }
  }

  // ---------------------------------------------------------------- proxying and logout

  /** Every proxy request. */
  lemma ProxyDecided(cfg: Config, s: Stores, pgt: string, target: string, part: RandomPart, now: int)
    ensures var (after, reply) := Proxy(cfg, s, pgt, target, part, now);
            if pgt == "" || target == "" then after == s && reply == ProxyRejected(InvalidRequest)
            else if !(pgt in s.tickets && s.tickets[pgt].kind == PGT && now <= s.tickets[pgt].expiresAt) then
              after == s && reply == ProxyRejected(InvalidTicket)
            else if cfg.findApp(target).Some? && !cfg.findApp(target).value.allowProxy then
              after == s && reply == ProxyRejected(UnauthorizedServiceProxy)
            else
              && reply == ProxyIssued("PT-" + part) && "PT-" + part in after.tickets
              && after.tickets == s.tickets["PT-" + part := after.tickets["PT-" + part]]
              && after.ious == s.ious && after.apps == s.apps
              && (var t := after.tickets["PT-" + part];
                  && t.kind == PT && t.service == target && t.userId == s.tickets[pgt].userId
                  && t.expiresAt == now + cfg.ttlPT && t.proxies == s.tickets[pgt].proxies + [s.tickets[pgt].service])
  {
  }

  /** A logout drops the registrations of its session and touches nothing else. */
  lemma LogoutDecided(cfg: Config, s: Stores, sessionId: string)
    ensures var after := Logout(cfg, s, sessionId).0;
            && after.tickets == s.tickets && after.ious == s.ious
            && (sessionId in after.apps ==> after.apps[sessionId] == [])
            && (forall other :: other != sessionId && other in s.apps ==>
                  other in after.apps && after.apps[other] == s.apps[other])
            && (forall other :: other in after.apps ==> other in s.apps)
  {
  }
}
