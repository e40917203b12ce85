/**
 * What holds over every run of the CAS issuer's serialised handlers in which the generated identifiers are new
 * (packages/issuer-cas/src/issuer.ts).
 */
module CasRuns {
  import opened Wrappers
  import opened CasSpec

  datatype Request =
    | DoLogin(login: LoginRequest, session: PortalSession, part: RandomPart)
    | DoLogout(sessionId: string)
    | DoRedeem(endpoint: Endpoint, redeem: RedeemRequest)
    | DoProxy(pgt: string, target: string, part: RandomPart)

  datatype Event = Event(now: nat, request: Request)

  /** Where an identifier comes from: the login, or the ticket it was derived from. */
  datatype Lineage =
    | FromLogin(session: PortalSession, service: string)
    | FromTicket(parentId: string, parent: Lineage)
    | FromPgt(pgtId: string, parent: Lineage, service: string)

  /** The stores with the history of the run: every identifier ever issued and every acceptance. */
  datatype World = World(stores: Stores, ledger: map<string, Lineage>, usedIous: set<string>, accepted: seq<string>)

  const START := World(Stores(map[], map[], map[]), map[], {}, [])

  function Root(l: Lineage): PortalSession {
    match l
    case FromLogin(session, _) => session
    case FromTicket(_, parent) => Root(parent)
    case FromPgt(_, parent, _) => Root(parent)
  }

  function ServiceOf(l: Lineage): string {
    match l
    case FromLogin(_, service) => service
    case FromTicket(_, parent) => ServiceOf(parent)
    case FromPgt(_, _, service) => service
  }

  function KindOf(l: Lineage): TicketType {
    match l
    case FromLogin(_, _) => ST
    case FromTicket(_, _) => PGT
    case FromPgt(_, _, _) => PT
  }

  /** The proxies named for a ticket: the service of the PGT it was bought with, and nothing before it. */
  function ProxiesOf(l: Lineage): seq<string> {
    if l.FromPgt? then [ServiceOf(l.parent)] else []
  }

  // ---------------------------------------------------------------- one step of a run

  ghost function Add(w: World, s: Stores, id: string, l: Lineage): World {
    w.(stores := s, ledger := w.ledger[id := l])
  }

  ghost function RedeemStep(cfg: Config, w: World, endpoint: Endpoint, req: RedeemRequest, now: int): World {
    var (s, reply) := Redeem(cfg, w.stores, endpoint, req, now);
    if reply.Rejected? then w.(stores := s)
    else
      var seen := w.(stores := s, accepted := w.accepted + [req.ticket]);
      if WantsPgt(cfg, endpoint, req) && CanIssuePgt(cfg, req.pgt) && req.ticket in w.ledger then
        Add(seen, s, "PGT-" + req.pgt.pgtPart, FromTicket(req.ticket, w.ledger[req.ticket]))
          .(usedIous := w.usedIous + {IouOf(req.pgt.iouPart)})
      else seen
  }

  ghost function Step(cfg: Config, w: World, e: Event): World {
    match e.request
    case DoLogin(req, session, part) =>
      var s := Login(cfg, w.stores, req, session, part, e.now).0;
      if IssuesTicket(cfg, req, session) then Add(w, s, "ST-" + part, FromLogin(session, req.service))
      else w.(stores := s)
    case DoLogout(sessionId) => w.(stores := Logout(cfg, w.stores, sessionId).0)
    case DoRedeem(endpoint, req) => RedeemStep(cfg, w, endpoint, req, e.now)
    case DoProxy(pgt, target, part) =>
      var (s, reply) := Proxy(cfg, w.stores, pgt, target, part, e.now);
      if reply.ProxyIssued? && pgt in w.ledger then Add(w, s, "PT-" + part, FromPgt(pgt, w.ledger[pgt], target))
      else w.(stores := s)
  }

  /** The identifiers the event would generate were never generated before. */
  ghost predicate Fresh(w: World, e: Event) {
    match e.request
    case DoLogin(_, _, part) => "ST-" + part !in w.ledger
    case DoLogout(_) => true
    case DoRedeem(_, req) =>
      req.pgt.PgtUrl? ==> "PGT-" + req.pgt.pgtPart !in w.ledger && IouOf(req.pgt.iouPart) !in w.usedIous
    case DoProxy(_, _, part) => "PT-" + part !in w.ledger
  }

  ghost function Run(cfg: Config, events: seq<Event>): World {
    if |events| == 0 then START else Step(cfg, Run(cfg, events[..|events| - 1]), events[|events| - 1])
  }

  ghost predicate FreshRun(cfg: Config, events: seq<Event>) {
    forall i :: 0 <= i < |events| ==> Fresh(Run(cfg, events[..i]), events[i])
  }

  // ---------------------------------------------------------------- the invariant

  /** The stored ticket says what its lineage says. */
  ghost predicate Faithful(id: string, t: Ticket, l: Lineage) {
    && t.id == id
    && t.kind == KindOf(l)
    && t.userId == Root(l).user
    && t.sessionId == Root(l).id
    && t.service == ServiceOf(l)
    && t.proxies == ProxiesOf(l)
    && t.pgtId == (if l.FromPgt? then Some(l.pgtId) else None)
  }

  ghost predicate StoreFaithful(w: World) {
    forall id :: id in w.stores.tickets ==> id in w.ledger && Faithful(id, w.stores.tickets[id], w.ledger[id])
  }

  /** The identifier has the format of its kind, and its parent was issued before it. */
  ghost predicate Rooted(ledger: map<string, Lineage>, id: string, l: Lineage) {
    && HasFormat(id, KindOf(l))
    && (l.FromTicket? ==> l.parentId in ledger && ledger[l.parentId] == l.parent && !l.parent.FromTicket?)
    && (l.FromPgt? ==> l.pgtId in ledger && ledger[l.pgtId] == l.parent && l.parent.FromTicket?)
  }

  ghost predicate LedgerRooted(w: World) {
    forall id {:trigger Rooted(w.ledger, id, w.ledger[id])} :: id in w.ledger ==> Rooted(w.ledger, id, w.ledger[id])
  }

  /** Every acceptance is of a different issued ticket, which is gone from the store. */
  ghost predicate AcceptedOnce(w: World) {
    && (forall i :: 0 <= i < |w.accepted| ==> w.accepted[i] in w.ledger && w.accepted[i] !in w.stores.tickets)
    && (forall i, j :: 0 <= i < j < |w.accepted| ==> w.accepted[i] != w.accepted[j])
  }

  /** The IOU store is a bijection onto the stored PGTs. */
  ghost predicate IousMatch(s: Stores) {
    && (forall i :: i in s.ious ==> s.ious[i] in s.tickets && s.tickets[s.ious[i]].kind == PGT)
    && (forall i, j :: i in s.ious && j in s.ious && s.ious[i] == s.ious[j] ==> i == j)
    && (forall id :: id in s.tickets && s.tickets[id].kind == PGT ==> id in s.ious.Values)
  }

  ghost predicate Inv(w: World) {
    && StoreFaithful(w)
    && LedgerRooted(w)
    && AcceptedOnce(w)
    && IousMatch(w.stores)
    && w.stores.ious.Keys <= w.usedIous
  }

  lemma FormatTellsKind(id: string, kind: TicketType, other: TicketType)
    requires HasFormat(id, kind) && Prefix(other) <= id
    ensures kind == other
  {
    assert id[0] == Prefix(kind)[0] && id[1] == Prefix(kind)[1];
  }

  lemma NewFormat(kind: TicketType, part: RandomPart)
    ensures HasFormat(Prefix(kind) + part, kind)
  {
    assert (Prefix(kind) + part)[|Prefix(kind)|..] == part;
  }

  /** A ticket of a validation endpoint is never a PGT. */
  lemma RecognisedIsNoPgt(w: World, endpoint: Endpoint, ticket: string)
    requires Inv(w) && Recognised(endpoint, ticket) && ticket in w.stores.tickets
    ensures w.stores.tickets[ticket].kind != PGT
  {
    if w.stores.tickets[ticket].kind == PGT {
      assert Rooted(w.ledger, ticket, w.ledger[ticket]);
      FormatTellsKind(ticket, PGT, if "ST-" <= ticket then ST else PT);
    }
  }

  lemma LoginKeeps(cfg: Config, w: World, req: LoginRequest, session: PortalSession, part: RandomPart, now: nat)
    requires Inv(w) && Fresh(w, Event(now, DoLogin(req, session, part)))
    ensures Inv(Step(cfg, w, Event(now, DoLogin(req, session, part))))
  {
    if IssuesTicket(cfg, req, session) {
      NewFormat(ST, part);
      var t := ServiceTicket(cfg, req, session, part, now);
      StoreKeeps(w, Login(cfg, w.stores, req, session, part, now).0, t, FromLogin(session, req.service));
    }
  }

  lemma LedgerGrows(w: World, w': World, id: string, l: Lineage)
    requires LedgerRooted(w) && id !in w.ledger && Rooted(w.ledger, id, l)
    requires w'.ledger == w.ledger[id := l]
    ensures LedgerRooted(w')
  {
    forall k | k in w'.ledger
      ensures Rooted(w'.ledger, k, w'.ledger[k])
    {
      assert k != id ==> Rooted(w.ledger, k, w.ledger[k]);
    }
  }

  /** Storing a new ticket that is not a PGT keeps the invariant. */
  lemma StoreKeeps(w: World, s: Stores, t: Ticket, l: Lineage)
    requires Inv(w) && t.id !in w.ledger && !l.FromTicket?
    requires s.tickets == w.stores.tickets[t.id := t] && s.ious == w.stores.ious
    requires Faithful(t.id, t, l) && Rooted(w.ledger, t.id, l)
    ensures Inv(Add(w, s, t.id, l))
  {
    LedgerGrows(w, Add(w, s, t.id, l), t.id, l);
  }

  lemma ProxyKeeps(cfg: Config, w: World, pgt: string, target: string, part: RandomPart, now: nat)
    requires Inv(w) && Fresh(w, Event(now, DoProxy(pgt, target, part)))
    ensures Inv(Step(cfg, w, Event(now, DoProxy(pgt, target, part))))
  {
    var (s, reply) := Proxy(cfg, w.stores, pgt, target, part, now);
    if reply.ProxyIssued? {
      NewFormat(PT, part);
      var t := ProxyTicket(cfg, w.stores.tickets[pgt], pgt, target, part, now);
      StoreKeeps(w, s, t, FromPgt(pgt, w.ledger[pgt], target));
    }
  }

  /** Consuming a ticket of a validation endpoint keeps the invariant, and frees it for one acceptance. */
  lemma SpendKeeps(w: World, endpoint: Endpoint, ticket: string)
    requires Inv(w) && Recognised(endpoint, ticket) && ticket in w.stores.tickets
    ensures var spent := w.stores.(tickets := w.stores.tickets - {ticket});
            Inv(w.(stores := spent)) && Inv(w.(stores := spent, accepted := w.accepted + [ticket]))
  {
    RecognisedIsNoPgt(w, endpoint, ticket);
    var spent := w.stores.(tickets := w.stores.tickets - {ticket});
    forall id | id in spent.tickets && spent.tickets[id].kind == PGT
      ensures id in spent.ious.Values
    {
      assert w.stores.tickets[id].kind == PGT;
    }
  }

  /** `issuePGT` adds one PGT and its IOU, or nothing at all. */
  lemma IssuePgtKeeps(cfg: Config, w: World, from: Ticket, parentId: string, pgt: PgtRequest, now: int)
    requires Inv(w) && CanIssuePgt(cfg, pgt)
    requires "PGT-" + pgt.pgtPart !in w.ledger && IouOf(pgt.iouPart) !in w.usedIous
    requires parentId in w.ledger && Faithful(parentId, from, w.ledger[parentId]) && from.kind != PGT
    ensures var s := IssuePgt(cfg, w.stores, from, pgt, now).0;
            Inv(Add(w, s, "PGT-" + pgt.pgtPart, FromTicket(parentId, w.ledger[parentId]))
                  .(usedIous := w.usedIous + {IouOf(pgt.iouPart)}))
  {
    NewFormat(PGT, pgt.pgtPart);
    var t := PgtFor(cfg, from, pgt.pgtPart, now);
    var iou := IouOf(pgt.iouPart);
    var (s, issued) := IssuePgt(cfg, w.stores, from, pgt, now);
    LedgerGrows(w, Add(w, s, t.id, FromTicket(parentId, w.ledger[parentId])), t.id,
                FromTicket(parentId, w.ledger[parentId]));
    if Delivered(pgt.callback) {
      assert iou in s.ious && s.ious[iou] == t.id;
      forall id | id in s.tickets && s.tickets[id].kind == PGT
        ensures id in s.ious.Values
      {
        if id != t.id {
          assert id in w.stores.ious.Values;
          var i :| i in w.stores.ious && w.stores.ious[i] == id;
          assert i in s.ious && s.ious[i] == id;
        }
      }
    } else {
      PgtUndone(cfg, w.stores, from, pgt, now);
    }
  }

  /** What `issuePGT` stores for a new pair it takes out again when the callback fails. */
  lemma PgtUndone(cfg: Config, s: Stores, from: Ticket, pgt: PgtRequest, now: int)
    requires CanIssuePgt(cfg, pgt) && !Delivered(pgt.callback)
    requires "PGT-" + pgt.pgtPart !in s.tickets && IouOf(pgt.iouPart) !in s.ious
    ensures IssuePgt(cfg, s, from, pgt, now) == (s, None)
  {
    var after := IssuePgt(cfg, s, from, pgt, now).0;
    assert after.tickets == s.tickets && after.ious == s.ious;
  }

  lemma RedeemKeeps(cfg: Config, w: World, endpoint: Endpoint, req: RedeemRequest, now: nat)
    requires Inv(w) && Fresh(w, Event(now, DoRedeem(endpoint, req)))
    ensures Inv(RedeemStep(cfg, w, endpoint, req, now))
  {
    if Complete(endpoint, req) && Recognised(endpoint, req.ticket) && req.ticket in w.stores.tickets {
      SpendKeeps(w, endpoint, req.ticket);
      RecognisedIsNoPgt(w, endpoint, req.ticket);
      var t := w.stores.tickets[req.ticket];
      if Honours(t, endpoint, req, now) && WantsPgt(cfg, endpoint, req) && CanIssuePgt(cfg, req.pgt) {
        var spent := w.stores.(tickets := w.stores.tickets - {req.ticket});
        IssuePgtKeeps(cfg, w.(stores := spent, accepted := w.accepted + [req.ticket]), t, req.ticket, req.pgt, now);
      }
    }
  }

  lemma StepKeeps(cfg: Config, w: World, e: Event)
    requires Inv(w) && Fresh(w, e)
    ensures Inv(Step(cfg, w, e))
  {
    match e.request
    case DoLogin(req, session, part) => LoginKeeps(cfg, w, req, session, part, e.now);
    case DoLogout(sessionId) =>
    case DoRedeem(endpoint, req) => RedeemKeeps(cfg, w, endpoint, req, e.now);
    case DoProxy(pgt, target, part) => ProxyKeeps(cfg, w, pgt, target, part, e.now);
  }

  /** Every run keeps the invariant: in particular no ticket is accepted twice in it, across all the
      endpoints, and the IOU store matches the PGTs after every handler. */
  lemma {:induction false} RunKeeps(cfg: Config, events: seq<Event>)
    requires FreshRun(cfg, events)
    ensures Inv(Run(cfg, events))
  {
    if |events| > 0 {
      var before := events[..|events| - 1];
      forall i | 0 <= i < |before|
        ensures Fresh(Run(cfg, before[..i]), before[i])
      {
        assert before[..i] == events[..i];
      }
      RunKeeps(cfg, before);
      StepKeeps(cfg, Run(cfg, before), events[|events| - 1]);
    }
  }

  // ---------------------------------------------------------------- what an acceptance means

  /** Exactly one slash is taken off. */
  lemma SlashTaken(url: string)
    ensures WithoutSlash(url + "/") == url
    ensures if url == "" || url[|url| - 1] != '/' then WithoutSlash(url) == url else url == WithoutSlash(url) + "/"
  {
    assert (url + "/")[..|url|] == url;
  }

  /** Services are the same up to one slash that only one of them ends in. */
  lemma SameService(a: string, b: string)
    ensures ServiceMatches(a, b) <==>
            || a == b
            || (a == b + "/" && (b == "" || b[|b| - 1] != '/'))
            || (b == a + "/" && (a == "" || a[|a| - 1] != '/'))
  {
    SlashTaken(a);
    SlashTaken(b);
    assert a == b + "/" ==> |a| > 0 && a[|a| - 1] == '/';
    assert b == a + "/" ==> |b| > 0 && b[|b| - 1] == '/';
  }

  /** What an accepting reply and the stores after it say, given the lineage of the ticket. */
  ghost predicate Justified(w: World, endpoint: Endpoint, req: RedeemRequest, s: Stores, reply: Reply, l: Lineage)
    requires reply.Accepted?
  {
    && (l.FromLogin? || (l.FromPgt? && endpoint == ProxyValidate))
    && reply.user == Root(l).user
    && reply.proxies == (if endpoint == ProxyValidate then ProxiesOf(l) else [])
    && (var a, b := ServiceOf(l), req.service;
        a == b || (a == b + "/" && (b == "" || b[|b| - 1] != '/')) || (b == a + "/" && (a == "" || a[|a| - 1] != '/')))
    && (reply.pgtIou.Some? ==>
          && reply.pgtIou.value in s.ious
          && var pgt := s.ious[reply.pgtIou.value];
          && pgt !in w.ledger && pgt in s.tickets && s.tickets[pgt].kind == PGT
          && s.tickets[pgt].userId == Root(l).user && s.tickets[pgt].service == ServiceOf(l))
  }

  /**
   * A ticket accepted after any run was issued in it, not accepted before and is consumed now; the user
   * named is the one who logged in at the root of its lineage, and the proxies named are the service of
   * the PGT it was bought with.  A fake ticket is never accepted.
   */
  lemma AcceptedMeans(cfg: Config, events: seq<Event>, endpoint: Endpoint, req: RedeemRequest, now: nat)
    requires FreshRun(cfg, events) && Fresh(Run(cfg, events), Event(now, DoRedeem(endpoint, req)))
    requires Redeem(cfg, Run(cfg, events).stores, endpoint, req, now).1.Accepted?
    ensures var w := Run(cfg, events);
            var (s, reply) := Redeem(cfg, w.stores, endpoint, req, now);
            && req.ticket in w.ledger && req.ticket !in w.accepted && req.ticket !in s.tickets
            && !(FAKE_PREFIX <= req.ticket)
            && Justified(w, endpoint, req, s, reply, w.ledger[req.ticket])
  {
    RunKeeps(cfg, events);
    AcceptedInWorld(cfg, Run(cfg, events), endpoint, req, now);
  }

  lemma AcceptedInWorld(cfg: Config, w: World, endpoint: Endpoint, req: RedeemRequest, now: nat)
    requires Inv(w) && Fresh(w, Event(now, DoRedeem(endpoint, req)))
    requires Redeem(cfg, w.stores, endpoint, req, now).1.Accepted?
    ensures var (s, reply) := Redeem(cfg, w.stores, endpoint, req, now);
            && req.ticket in w.ledger && req.ticket !in w.accepted && req.ticket !in s.tickets
            && !(FAKE_PREFIX <= req.ticket)
            && Justified(w, endpoint, req, s, reply, w.ledger[req.ticket])
  {
    RecognisedIsNoPgt(w, endpoint, req.ticket);
    SameService(w.stores.tickets[req.ticket].service, req.service);
    assert Rooted(w.ledger, req.ticket, w.ledger[req.ticket]);
    FakeIsNoTicket(req.ticket, w.stores.tickets[req.ticket].kind);
    if endpoint != ProxyValidate {
      FormatTellsKind(req.ticket, w.stores.tickets[req.ticket].kind, ST);
    }
  }

  lemma FakeIsNoTicket(ticket: string, kind: TicketType)
    requires HasFormat(ticket, kind)
    ensures !(FAKE_PREFIX <= ticket)
  {
    var random := ticket[|Prefix(kind)|..];
    assert IsHexOrDash(random[5 - |Prefix(kind)|]);
    assert FAKE_PREFIX[5] == 'k' && ticket[5] != 'k';
  }

  lemma FreshPrefix(cfg: Config, events: seq<Event>, later: seq<Event>)
    requires FreshRun(cfg, events + later)
    ensures FreshRun(cfg, events)
  {
    forall i | 0 <= i < |events|
      ensures Fresh(Run(cfg, events[..i]), events[i])
    {
      assert (events + later)[..i] == events[..i];
    }
  }

  /** The last step of a longer run. */
  lemma LastStep(cfg: Config, events: seq<Event>, later: seq<Event>)
    requires FreshRun(cfg, events + later) && |later| > 0
    ensures var before := events + later[..|later| - 1];
            && FreshRun(cfg, before) && Inv(Run(cfg, before)) && Fresh(Run(cfg, before), later[|later| - 1])
            && Run(cfg, events + later) == Step(cfg, Run(cfg, before), later[|later| - 1])
  {
    var before, last := events + later[..|later| - 1], later[|later| - 1];
    assert events + later == before + [last];
    assert (events + later)[..|before|] == before;
    FreshPrefix(cfg, before, [last]);
    RunKeeps(cfg, before);
  }

  /** A ticket that has left the store, accepted or refused, is never accepted again. */
  lemma {:induction false} SpentForever(cfg: Config, events: seq<Event>, later: seq<Event>, ticket: string)
    requires FreshRun(cfg, events + later)
    requires ticket in Run(cfg, events).ledger && ticket !in Run(cfg, events).stores.tickets
    ensures ticket in Run(cfg, events + later).ledger && ticket !in Run(cfg, events + later).stores.tickets
    ensures Run(cfg, events).accepted <= Run(cfg, events + later).accepted
    ensures ticket !in Run(cfg, events + later).accepted[|Run(cfg, events).accepted|..]
    decreases |later|
  {
    if |later| == 0 {
      assert events + later == events;
    } else {
      LastStep(cfg, events, later);
      SpentForever(cfg, events, later[..|later| - 1], ticket);
      SpentStays(cfg, Run(cfg, events + later[..|later| - 1]), later[|later| - 1], ticket);
    }
  }

  lemma SpentStays(cfg: Config, w: World, e: Event, ticket: string)
    requires Inv(w) && Fresh(w, e) && ticket in w.ledger && ticket !in w.stores.tickets
    ensures ticket in Step(cfg, w, e).ledger && ticket !in Step(cfg, w, e).stores.tickets
    ensures Step(cfg, w, e).accepted == w.accepted ||
            exists t :: t != ticket && Step(cfg, w, e).accepted == w.accepted + [t]
  {
  }

  // ---------------------------------------------------------------- tickets not yet presented

  /** The event presents the ticket to a validation endpoint. */
  predicate Presents(e: Event, ticket: string) {
    e.request.DoRedeem? && e.request.redeem.ticket == ticket
  }

  lemma RedeemKeepsOthers(cfg: Config, s: Stores, endpoint: Endpoint, req: RedeemRequest, now: int, ticket: string)
    requires ticket in s.tickets && ticket != req.ticket && (req.pgt.PgtUrl? ==> ticket != "PGT-" + req.pgt.pgtPart)
    ensures var after := Redeem(cfg, s, endpoint, req, now).0;
            ticket in after.tickets && after.tickets[ticket] == s.tickets[ticket]
  {
    if req.ticket in s.tickets {
      DecisionKeeps(cfg, s.(tickets := s.tickets - {req.ticket}), s.tickets[req.ticket], endpoint, req, now, ticket);
    }
  }

  lemma LoginKeepsOthers(cfg: Config, s: Stores, req: LoginRequest, session: PortalSession, part: RandomPart,
                         now: nat, ticket: string)
    requires ticket in s.tickets && ticket != "ST-" + part
    ensures var after := Login(cfg, s, req, session, part, now).0;
            ticket in after.tickets && after.tickets[ticket] == s.tickets[ticket]
  {
  }

  lemma ProxyKeepsOthers(cfg: Config, s: Stores, pgt: string, target: string, part: RandomPart, now: int,
                         ticket: string)
    requires ticket in s.tickets && ticket != "PT-" + part
    ensures var after := Proxy(cfg, s, pgt, target, part, now).0;
            ticket in after.tickets && after.tickets[ticket] == s.tickets[ticket]
  {
  }

  /** The stores after a step. */
  lemma StepStores(cfg: Config, w: World, e: Event)
    ensures Step(cfg, w, e).stores == match e.request
              case DoLogin(req, session, part) => Login(cfg, w.stores, req, session, part, e.now).0
              case DoLogout(sessionId) => Logout(cfg, w.stores, sessionId).0
              case DoRedeem(endpoint, req) => Redeem(cfg, w.stores, endpoint, req, e.now).0
              case DoProxy(pgt, target, part) => Proxy(cfg, w.stores, pgt, target, part, e.now).0
  {
  }

  lemma StepKeepsTicket(cfg: Config, w: World, e: Event, ticket: string)
    requires Inv(w) && Fresh(w, e) && ticket in w.stores.tickets && !Presents(e, ticket)
    ensures ticket in Step(cfg, w, e).stores.tickets
    ensures Step(cfg, w, e).stores.tickets[ticket] == w.stores.tickets[ticket]
  {
    StepStores(cfg, w, e);
    assert ticket in w.ledger;
    match e.request
    case DoLogin(req, session, part) => LoginKeepsOthers(cfg, w.stores, req, session, part, e.now, ticket);
    case DoLogout(_) =>
    case DoRedeem(endpoint, req) => RedeemKeepsOthers(cfg, w.stores, endpoint, req, e.now, ticket);
    case DoProxy(pgt, target, part) => ProxyKeepsOthers(cfg, w.stores, pgt, target, part, e.now, ticket);
  }

  /** A ticket stays in the store, unchanged, until it is presented. */
  lemma {:induction false} KeptUntilPresented(cfg: Config, events: seq<Event>, later: seq<Event>, ticket: string)
    requires FreshRun(cfg, events + later) && ticket in Run(cfg, events).stores.tickets
    requires forall i :: 0 <= i < |later| ==> !Presents(later[i], ticket)
    ensures ticket in Run(cfg, events + later).stores.tickets
    ensures Run(cfg, events + later).stores.tickets[ticket] == Run(cfg, events).stores.tickets[ticket]
    decreases |later|
  {
    if |later| == 0 {
      assert events + later == events;
    } else {
      LastStep(cfg, events, later);
      KeptUntilPresented(cfg, events, later[..|later| - 1], ticket);
      StepKeepsTicket(cfg, Run(cfg, events + later[..|later| - 1]), later[|later| - 1], ticket);
    }
  }

  lemma DecisionExactly(cfg: Config, spent: Stores, t: Ticket, endpoint: Endpoint, req: RedeemRequest, now: int)
    ensures var reply := Decide(cfg, spent, t, endpoint, req, now).1;
            && (reply.Accepted? <==> Honours(t, endpoint, req, now))
            && (reply.Accepted? ==>
                  reply.user == t.userId && reply.proxies == if endpoint == ProxyValidate then t.proxies else [])
  {
  }

  /** A stored ticket of the right form is accepted exactly in time, for its service, and renewed if demanded. */
  lemma StoredIsDecided(cfg: Config, s: Stores, t: Ticket, endpoint: Endpoint, req: RedeemRequest, now: int)
    requires req.ticket != "" && req.ticket in s.tickets && s.tickets[req.ticket] == t
    requires Recognised(endpoint, req.ticket)
    ensures var reply := Redeem(cfg, s, endpoint, req, now).1;
            var a, b := t.service, req.service;
            && (reply.Accepted? <==>
                && now <= t.expiresAt
                && (endpoint == SamlValidate || b != "")
                && (|| a == b
                    || (a == b + "/" && (b == "" || b[|b| - 1] != '/'))
                    || (b == a + "/" && (a == "" || a[|a| - 1] != '/')))
                && ((endpoint == Validate || endpoint == ServiceValidate) && req.renew ==> t.renew))
            && (reply.Accepted? ==>
                  reply.user == t.userId && reply.proxies == if endpoint == ProxyValidate then t.proxies else [])
  {
    SameService(t.service, req.service);
    DecisionExactly(cfg, s.(tickets := s.tickets - {req.ticket}), t, endpoint, req, now);
  }

  /** The run of a login that gets a service ticket, and what follows it. */
  ghost predicate LoggedIn(cfg: Config, events: seq<Event>, e: Event, later: seq<Event>) {
    && e.request.DoLogin?
    && (var req, session, app := e.request.login, e.request.session, cfg.findApp(e.request.login.service);
        && req.service != ""
        && (app.None? ==> cfg.policy == NoPolicy)
        && (app.Some? ==> session.authnLevel >= app.value.authnLevel)
        && (req.gateway ==> session.user != ""))
    && FreshRun(cfg, events + [e] + later)
    && forall i :: 0 <= i < |later| ==> !Presents(later[i], "ST-" + e.request.part)
  }

  /**
   * A service ticket first presented after any further run is accepted, for the user who logged in, exactly in time,
   * for the service of the login, and for a renewed login if one is demanded.
   */
  lemma LoginThenValidate(cfg: Config, events: seq<Event>, e: Event, later: seq<Event>, endpoint: Endpoint,
                          req: RedeemRequest, now: nat)
    requires LoggedIn(cfg, events, e, later) && req.ticket == "ST-" + e.request.part
    ensures var reply := Redeem(cfg, Run(cfg, events + [e] + later).stores, endpoint, req, now).1;
            var a, b := e.request.login.service, req.service;
            && (reply.Accepted? <==>
                && now <= e.now + cfg.ttlST
                && (endpoint == SamlValidate || b != "")
                && (|| a == b
                    || (a == b + "/" && (b == "" || b[|b| - 1] != '/'))
                    || (b == a + "/" && (a == "" || a[|a| - 1] != '/')))
                && ((endpoint == Validate || endpoint == ServiceValidate) && req.renew ==> e.request.login.renew))
            && (reply.Accepted? ==> reply.user == e.request.session.user && reply.proxies == [])
  {
    var s := Run(cfg, events + [e] + later).stores;
    assert (events + [e])[..|events|] == events;
    var t := ServiceTicket(cfg, e.request.login, e.request.session, e.request.part, e.now);
    assert Run(cfg, events + [e]).stores.tickets[t.id] == t;
    KeptUntilPresented(cfg, events + [e], later, t.id);
    NewFormat(ST, e.request.part);
    StoredIsDecided(cfg, s, t, endpoint, req, now);
  }

  /** A proxy request that gets a ticket, and what follows it. */
  ghost predicate Proxied(cfg: Config, events: seq<Event>, e: Event, later: seq<Event>) {
    && FreshRun(cfg, events + [e] + later)
    && e.request.DoProxy? && e.request.pgt != "" && e.request.target != ""
    && (var tickets := Run(cfg, events).stores.tickets;
        && e.request.pgt in tickets && tickets[e.request.pgt].kind == PGT && e.now <= tickets[e.request.pgt].expiresAt)
    && (cfg.findApp(e.request.target).Some? ==> cfg.findApp(e.request.target).value.allowProxy)
    && forall i :: 0 <= i < |later| ==> !Presents(later[i], "PT-" + e.request.part)
  }

  /** The ticket it gets is there after the run; the PGT bore no proxies and the user of its lineage. */
  lemma ProxyTicketKept(cfg: Config, events: seq<Event>, e: Event, later: seq<Event>)
    requires Proxied(cfg, events, e, later)
    ensures var w, pgt := Run(cfg, events), e.request.pgt;
            var s := Run(cfg, events + [e] + later).stores;
            && "PT-" + e.request.part in s.tickets
            && s.tickets["PT-" + e.request.part] ==
               ProxyTicket(cfg, w.stores.tickets[pgt], pgt, e.request.target, e.request.part, e.now)
            && pgt in w.ledger && w.stores.tickets[pgt].userId == Root(w.ledger[pgt]).user
            && w.stores.tickets[pgt].proxies == []
  {
    var w := Run(cfg, events);
    assert (events + [e])[..|events|] == events;
    assert events + [e] + later == events + ([e] + later);
    FreshPrefix(cfg, events, [e] + later);
    RunKeeps(cfg, events);
    var t := ProxyTicket(cfg, w.stores.tickets[e.request.pgt], e.request.pgt, e.request.target, e.request.part, e.now);
    assert Run(cfg, events + [e]).stores.tickets[t.id] == t;
    KeptUntilPresented(cfg, events + [e], later, t.id);
  }

  /**
   * A proxy ticket first presented after any further run is accepted at proxyValidate only, in time and for the target,
   * for the user at the root of the PGT's lineage, naming the PGT's service as the one proxy.
   */
  lemma ProxyThenValidate(cfg: Config, events: seq<Event>, e: Event, later: seq<Event>, endpoint: Endpoint,
                          req: RedeemRequest, now: nat)
    requires Proxied(cfg, events, e, later) && req.ticket == "PT-" + e.request.part
    ensures var reply := Redeem(cfg, Run(cfg, events + [e] + later).stores, endpoint, req, now).1;
            var a, b := e.request.target, req.service;
            var w := Run(cfg, events);
            && e.request.pgt in w.ledger
            && (reply.Accepted? <==>
                && endpoint == ProxyValidate
                && now <= e.now + cfg.ttlPT
                && b != ""
                && (|| a == b
                    || (a == b + "/" && (b == "" || b[|b| - 1] != '/'))
                    || (b == a + "/" && (a == "" || a[|a| - 1] != '/'))))
            && (reply.Accepted? ==>
                  && reply.user == Root(w.ledger[e.request.pgt]).user
                  && reply.proxies == [w.stores.tickets[e.request.pgt].service])
  {
    var w := Run(cfg, events);
    var s := Run(cfg, events + [e] + later).stores;
    var t := ProxyTicket(cfg, w.stores.tickets[e.request.pgt], e.request.pgt, e.request.target, e.request.part, e.now);
    ProxyTicketKept(cfg, events, e, later);
    NotST(e.request.part);
    if endpoint == ProxyValidate {
      StoredIsDecided(cfg, s, t, endpoint, req, now);
    }
  }

  lemma NotST(part: RandomPart)
    ensures !HasFormat("PT-" + part, ST) && "PT-" <= "PT-" + part
  {
    assert ("PT-" + part)[0] == 'P' && "ST-"[0] == 'S';
  }

  // ---------------------------------------------------------------- proxy-granting tickets

  /** No validation removes or alters a PGT. */
  lemma ValidationKeepsPgts(cfg: Config, events: seq<Event>, endpoint: Endpoint, req: RedeemRequest, now: nat,
                            id: string)
    requires FreshRun(cfg, events) && Fresh(Run(cfg, events), Event(now, DoRedeem(endpoint, req)))
    requires id in Run(cfg, events).stores.tickets && Run(cfg, events).stores.tickets[id].kind == PGT
    ensures var s := Redeem(cfg, Run(cfg, events).stores, endpoint, req, now).0;
            id in s.tickets && s.tickets[id] == Run(cfg, events).stores.tickets[id]
  {
    RunKeeps(cfg, events);
    ValidationKeepsPgt(cfg, Run(cfg, events), endpoint, req, now, id);
  }

  /** A decision adds at most a new PGT, and takes away only what it added. */
  lemma DecisionKeeps(cfg: Config, spent: Stores, t: Ticket, endpoint: Endpoint, req: RedeemRequest, now: int,
                      id: string)
    requires id in spent.tickets && (req.pgt.PgtUrl? ==> id != "PGT-" + req.pgt.pgtPart)
    ensures var s := Decide(cfg, spent, t, endpoint, req, now).0;
            id in s.tickets && s.tickets[id] == spent.tickets[id]
  {
  }

  lemma ValidationKeepsPgt(cfg: Config, w: World, endpoint: Endpoint, req: RedeemRequest, now: nat, id: string)
    requires Inv(w) && Fresh(w, Event(now, DoRedeem(endpoint, req)))
    requires id in w.stores.tickets && w.stores.tickets[id].kind == PGT
    ensures var s := Redeem(cfg, w.stores, endpoint, req, now).0;
            id in s.tickets && s.tickets[id] == w.stores.tickets[id]
  {
    if Recognised(endpoint, req.ticket) && req.ticket in w.stores.tickets {
      RecognisedIsNoPgt(w, endpoint, req.ticket);
      var spent := w.stores.(tickets := w.stores.tickets - {req.ticket});
      DecisionKeeps(cfg, spent, w.stores.tickets[req.ticket], endpoint, req, now, id);
    }
  }

  /** A refused or throwing callback leaves neither the PGT nor its IOU: only the ticket is consumed. */
  lemma FailedCallbackLeavesNothing(cfg: Config, events: seq<Event>, endpoint: Endpoint, req: RedeemRequest, now: nat)
    requires FreshRun(cfg, events) && Fresh(Run(cfg, events), Event(now, DoRedeem(endpoint, req)))
    requires req.pgt.PgtUrl? && !Delivered(req.pgt.callback)
    ensures var before := Run(cfg, events).stores;
            var (s, reply) := Redeem(cfg, before, endpoint, req, now);
            && s.ious == before.ious
            && (s.tickets == before.tickets || s.tickets == before.tickets - {req.ticket})
            && (reply.Accepted? ==> reply.pgtIou.None?)
  {
    RunKeeps(cfg, events);
    FailedCallback(cfg, Run(cfg, events), endpoint, req, now);
  }

  /** Without a delivered callback the decision leaves the stores as they were. */
  lemma DecisionUndone(cfg: Config, spent: Stores, t: Ticket, endpoint: Endpoint, req: RedeemRequest, now: int)
    requires req.pgt.PgtUrl? && !Delivered(req.pgt.callback)
    requires "PGT-" + req.pgt.pgtPart !in spent.tickets && IouOf(req.pgt.iouPart) !in spent.ious
    ensures var (s, reply) := Decide(cfg, spent, t, endpoint, req, now);
            s == spent && (reply.Accepted? ==> reply.pgtIou.None?)
  {
    if CanIssuePgt(cfg, req.pgt) {
      PgtUndone(cfg, spent, t, req.pgt, now);
    }
  }

  lemma FailedCallback(cfg: Config, w: World, endpoint: Endpoint, req: RedeemRequest, now: nat)
    requires Inv(w) && Fresh(w, Event(now, DoRedeem(endpoint, req)))
    requires req.pgt.PgtUrl? && !Delivered(req.pgt.callback)
    ensures var (s, reply) := Redeem(cfg, w.stores, endpoint, req, now);
            && s.ious == w.stores.ious
            && (s.tickets == w.stores.tickets || s.tickets == w.stores.tickets - {req.ticket})
            && (reply.Accepted? ==> reply.pgtIou.None?)
  {
    if req.ticket in w.stores.tickets {
      var spent := w.stores.(tickets := w.stores.tickets - {req.ticket});
      DecisionUndone(cfg, spent, w.stores.tickets[req.ticket], endpoint, req, now);
    }
  }

  // ---------------------------------------------------------------- single logout

  /** The services of known applications the session logged in to since its last logout. */
  ghost function LoggedInSince(cfg: Config, events: seq<Event>, sessionId: string): set<string> {
    if |events| == 0 then {}
    else
      var before := LoggedInSince(cfg, events[..|events| - 1], sessionId);
      match events[|events| - 1].request
      case DoLogin(req, session, _) =>
        if session.id == sessionId && IssuesTicket(cfg, req, session) && cfg.findApp(req.service).Some?
        then before + {req.service} else before
      case DoLogout(id) => if id == sessionId then {} else before
      case DoRedeem(_, _) => before
      case DoProxy(_, _, _) => before
  }

  ghost predicate Distinct(services: seq<string>) {
    forall i, j :: 0 <= i < j < |services| ==> services[i] != services[j]
  }

  ghost function RegisteredServices(w: World, sessionId: string): seq<string> {
    Services(Registered(w.stores.apps, sessionId))
  }

  /** The services registered for a session are, once each, those it logged in to since its last logout. */
  lemma {:induction false} RegisteredSinceLogout(cfg: Config, events: seq<Event>, sessionId: string)
    ensures Distinct(RegisteredServices(Run(cfg, events), sessionId))
    ensures forall s :: s in RegisteredServices(Run(cfg, events), sessionId) <==>
            s in LoggedInSince(cfg, events, sessionId)
  {
    if |events| > 0 {
      var before := events[..|events| - 1];
      RegisteredSinceLogout(cfg, before, sessionId);
      StepRegisters(cfg, Run(cfg, before), events[|events| - 1], sessionId);
    }
  }

  lemma StepRegisters(cfg: Config, w: World, e: Event, sessionId: string)
    requires Distinct(RegisteredServices(w, sessionId))
    ensures var before := RegisteredServices(w, sessionId);
            var after := RegisteredServices(Step(cfg, w, e), sessionId);
            Distinct(after) && after == match e.request
              case DoLogin(req, session, _) =>
                if session.id == sessionId && IssuesTicket(cfg, req, session) && cfg.findApp(req.service).Some?
                   && req.service !in before
                then before + [req.service] else before
              case DoLogout(id) => if id == sessionId then [] else before
              case DoRedeem(_, _) => before
              case DoProxy(_, _, _) => before
  {
    match e.request
    case DoLogin(req, session, part) =>
      var app := cfg.findApp(req.service);
      if IssuesTicket(cfg, req, session) && app.Some? {
        RegisterOne(w.stores.apps, Registration(app.value.confKey, req.service, session.id, "ST-" + part), sessionId);
      }
    case DoLogout(_) =>
    case DoRedeem(_, _) =>
    case DoProxy(_, _, _) =>
  }

  lemma RegisterOne(apps: map<string, seq<Registration>>, reg: Registration, sessionId: string)
    requires Distinct(Services(Registered(apps, sessionId)))
    ensures var before := Services(Registered(apps, sessionId));
            var after := Services(Registered(Register(apps, reg), sessionId));
            after == if reg.sessionId == sessionId && reg.service !in before then before + [reg.service] else before
    ensures Distinct(Services(Registered(Register(apps, reg), sessionId)))
  {
  }

  /** Logout notifies, in order of registration, exactly the registered applications that ask for it. */
  lemma {:induction false} NotifiedOnce(cfg: Config, regs: seq<Registration>)
    requires Distinct(Services(regs))
    ensures Distinct(Notified(cfg, regs))
    ensures forall s :: s in Notified(cfg, regs) <==>
                        cfg.hasHttpClient &&
                        exists i :: 0 <= i < |regs| && regs[i].service == s && cfg.logoutOn(regs[i].confKey)
  {
    if |regs| > 0 {
      forall i | 0 <= i < |regs| - 1
        ensures Services(regs[1..])[i] == Services(regs)[i + 1] && regs[1..][i].service != regs[0].service
      {
        assert Services(regs)[0] != Services(regs)[i + 1];
      }
      NotifiedOnce(cfg, regs[1..]);
      assert regs[0].service !in Notified(cfg, regs[1..]);
      assert regs == [regs[0]] + regs[1..];
    }
  }

  /** Every registration is of a known application, under its configuration key. */
  ghost predicate Known(cfg: Config, regs: seq<Registration>) {
    forall i :: 0 <= i < |regs| ==>
      cfg.findApp(regs[i].service).Some? && regs[i].confKey == cfg.findApp(regs[i].service).value.confKey
  }

  lemma RegisterKnown(cfg: Config, apps: map<string, seq<Registration>>, reg: Registration, sessionId: string)
    requires Known(cfg, Registered(apps, sessionId)) && Known(cfg, [reg])
    ensures Known(cfg, Registered(Register(apps, reg), sessionId))
  {
    assert [reg][0] == reg;
  }

  lemma StepKnown(cfg: Config, w: World, e: Event, sessionId: string)
    requires Known(cfg, Registered(w.stores.apps, sessionId))
    ensures Known(cfg, Registered(Step(cfg, w, e).stores.apps, sessionId))
  {
    StepStores(cfg, w, e);
    match e.request
    case DoLogin(req, session, part) =>
      var app := cfg.findApp(req.service);
      if IssuesTicket(cfg, req, session) && app.Some? {
        RegisterKnown(cfg, w.stores.apps, Registration(app.value.confKey, req.service, session.id, "ST-" + part),
                      sessionId);
      }
    case _ =>
  }

  lemma {:induction false} RegistrationsKnown(cfg: Config, events: seq<Event>, sessionId: string)
    ensures Known(cfg, Registered(Run(cfg, events).stores.apps, sessionId))
  {
    if |events| > 0 {
      RegistrationsKnown(cfg, events[..|events| - 1], sessionId);
      StepKnown(cfg, Run(cfg, events[..|events| - 1]), events[|events| - 1], sessionId);
    }
  }

  /**
   * A logout after any run notifies, once each, exactly the services the session logged in to since its last logout
   * whose application asks for it.
   */
  lemma LogoutNotifies(cfg: Config, events: seq<Event>, sessionId: string)
    ensures var notified := Logout(cfg, Run(cfg, events).stores, sessionId).1;
            && Distinct(notified)
            && forall s :: s in notified <==>
                 && s in LoggedInSince(cfg, events, sessionId) && cfg.hasHttpClient
                 && cfg.findApp(s).Some? && cfg.logoutOn(cfg.findApp(s).value.confKey)
  {
    var regs := Registered(Run(cfg, events).stores.apps, sessionId);
    RegisteredSinceLogout(cfg, events, sessionId);
    RegistrationsKnown(cfg, events, sessionId);
    NotifiedOnce(cfg, regs);
    NotifiedAsk(cfg, regs);
  }

  lemma NotifiedAsk(cfg: Config, regs: seq<Registration>)
    requires Known(cfg, regs) && Distinct(Services(regs))
    ensures forall s :: s in Notified(cfg, regs) <==>
              && s in Services(regs) && cfg.hasHttpClient
              && cfg.findApp(s).Some? && cfg.logoutOn(cfg.findApp(s).value.confKey)
  {
    NotifiedOnce(cfg, regs);
    forall s | s in Notified(cfg, regs)
      ensures s in Services(regs) && cfg.hasHttpClient && cfg.findApp(s).Some? &&
              cfg.logoutOn(cfg.findApp(s).value.confKey)
    {
      var i :| 0 <= i < |regs| && regs[i].service == s && cfg.logoutOn(regs[i].confKey);
      assert Services(regs)[i] == s;
    }
    forall s | s in Services(regs) && cfg.hasHttpClient && cfg.findApp(s).Some? &&
               cfg.logoutOn(cfg.findApp(s).value.confKey)
      ensures s in Notified(cfg, regs)
    {
      var i :| 0 <= i < |regs| && Services(regs)[i] == s;
      assert regs[i].service == s;
    }
  }
}
