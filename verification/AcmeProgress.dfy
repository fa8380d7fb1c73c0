/** What a client of one realm can get done: the guards let through what the
    protocol promises, from any state of any run. */
module AcmeProgress {
  import opened Wrappers
  import opened OnceGuard
  import opened ProcessGuard
  import opened AcmeStore
  import opened AcmeRun
  import opened AcmeSafety
  import opened AcmeChanges

  lemma OneMore(p: Params, events: seq<Event>, e: Event)
    ensures After(p, events + [e]) == Apply(p, After(p, events), e)
  {
    assert (events + [e])[..|events + [e]| - 1] == events;
  }

  // ----- an account ---------------------------------------------------------

  /** A key that is in the index of no account can be bound, and is found then. */
  lemma NewKeyCanBeBound(p: Params, events: seq<Event>, req: Request, thumbprint: string, contact: seq<string>,
                         entry: Entry, id: Id)
    requires var w := After(p, events);
             && req !in w.pending && id !in w.store.accounts
             && thumbprint != "" && thumbprint !in w.store.accountKeys
    ensures var s := After(p, events + [Look(req, thumbprint, contact, entry)] + [Bound(req, id)]).store;
            && id in s.accounts && s.accounts[id] == Account(thumbprint, ActiveAccount, contact, entry, [])
            && AccountByThumbprint(s, thumbprint) == Some(id)
  {
    OneMore(p, events, Look(req, thumbprint, contact, entry));
    OneMore(p, events + [Look(req, thumbprint, contact, entry)], Bound(req, id));
  }

  /** A key that is somebody's joins nobody, and in every run every key in the index
      is somebody's. */
  lemma KnownKeyJoinsNobody(p: Params, events: seq<Event>, req: Request, thumbprint: string, contact: seq<string>,
                            entry: Entry)
    requires thumbprint in After(p, events).store.accountKeys && thumbprint != ""
    ensures AccountByThumbprint(After(p, events).store, thumbprint) ==
            Some(After(p, events).store.accountKeys[thumbprint])
    ensures !May(p, After(p, events), Look(req, thumbprint, contact, entry))
  {
    IndexAlwaysSound(p, events);
  }

  lemma SignedIn(p: Params, w: World, req: Request, a: Id)
    requires req !in w.pending && a in w.store.accounts && w.store.accounts[a].status.ActiveAccount?
    ensures Apply(p, w, Authenticate(req, a)) == w.(pending := w.pending[req := Signed(a)])
  {
  }

  /** What a signed request may do, in every state of every run. */
  lemma SignedMay(p: Params, events: seq<Event>, req: Request, a: Id)
    requires By(After(p, events), req, a)
    requires a in After(p, events).store.accounts
    ensures var w := After(p, events);
            && (forall contact, gone :: May(p, w, UpdateAccount(req, contact, gone)))
            && (forall key :: May(p, w, ChangeKey(req, key)) <==>
                  key != "" && key != w.store.accounts[a].thumbprint && key !in w.store.accountKeys)
            && (forall z :: May(p, w, DeactivateAuthz(req, z)) <==>
                  z in w.store.authzs && w.store.authzs[z].accountId == a)
  {
    IndexAlwaysSound(p, events);
  }

  lemma SignedMayFinalize(p: Params, events: seq<Event>, req: Request, a: Id, o: Id)
    requires By(After(p, events), req, a) && a in After(p, events).store.accounts
    ensures var w := After(p, events);
            May(p, w, FinalizeLook(req, o)) <==>
            && o in w.store.orders && w.store.orders[o].accountId == a && req !in w.guard.requests
            && w.store.orders[o].status.Ready? && w.guard.now < w.store.orders[o].expires
            && forall z :: z in w.store.orders[o].authzIds ==>
                 z in w.store.authzs && w.store.authzs[z].status.ValidAuthz? && w.guard.now < w.store.authzs[z].expires
  {
    OrdersAlwaysOk(p, events);
    var w := After(p, events);
    if o in w.store.orders {
      ReadyMeans(w.store, w.store.orders[o], w.guard.now);
    }
  }

  // ----- an order -----------------------------------------------------------

  /** A new order with fresh ids may be placed exactly if the certificate it is to
      replace, if any, is one of the account's entry and not replaced yet. */
  lemma SignedMayOrder(p: Params, events: seq<Event>, e: Event, a: Id)
    requires e.NewOrder? && By(After(p, events), e.req, a) && a in After(p, events).store.accounts
    requires var w := After(p, events);
             && e.orderId !in w.guard.deadlines && e.lifetimeMs <= p.lifetimeMs
             && EachOnce(e.authzIds) && forall z :: z in e.authzIds ==> z !in w.store.authzs
    ensures var s := After(p, events).store;
            May(p, After(p, events), e) <==>
            (e.replacing.Some? ==>
               && e.replacing.value in s.renewals && s.renewals[e.replacing.value] in s.certificates
               && s.certificates[s.renewals[e.replacing.value]].entry == s.accounts[a].entry
               && s.certificates[s.renewals[e.replacing.value]].replacedBy.None?)
  {
    AlwaysReplaceable(p, events);
  }

  /** Placed, it is shown "ready", and is the last its account lists. */
  lemma PlacedIsReady(p: Params, events: seq<Event>, e: Event)
    requires e.NewOrder? && May(p, After(p, events), e) && e.lifetimeMs > 0
    ensures var w := After(p, events + [e]);
            && e.orderId in w.store.orders
            && OrderStatusOf(w.store, w.store.orders[e.orderId], w.guard.now).OrderReady?
  {
    OneMore(p, events, e);
    OrdersAlwaysOk(p, events);
    OrderedOrders(p, After(p, events), e);
    OrderedAuthzs(p, After(p, events), e);
    var w := After(p, events + [e]);
    DeadlinesAfter(p, After(p, events).guard, GuardStep(After(p, events), e));
    ReadyMeans(w.store, w.store.orders[e.orderId], w.guard.now);
  }

  // ----- its finalize -------------------------------------------------------

  /** A request on its way to a certificate, with nothing else changed. */
  ghost predicate Stage(w0: World, w: World, req: Request, a: Id, phase: Phase)
  {
    && w.store == w0.store && w.guard.now == w0.guard.now && w.guard.deadlines == w0.guard.deadlines
    && req in w.pending && w.pending[req] == Finalizing(a)
    && req in w.guard.requests && w.guard.requests[req] == phase
    && phase.item in w.store.orders && phase.item in w.guard.deadlines && a in w.store.accounts
  }

  lemma Looked(p: Params, w0: World, w: World, req: Request, a: Id, o: Id)
    requires w == w0.(pending := w.pending) && req in w.pending && w.pending[req] == Signed(a)
    requires a in w.store.accounts && o in w.store.orders && w.store.orders[o].accountId == a
    requires req !in w.guard.requests && OrdersOk(w)
    requires OrderStatusOf(w.store, w.store.orders[o], w.guard.now).OrderReady?
    ensures Stage(w0, Apply(p, w, FinalizeLook(req, o)), req, a, Checked(o, w.guard.now))
    ensures Apply(p, w, FinalizeLook(req, o)).guard.claims == w.guard.claims
  {
    ReadyMeans(w.store, w.store.orders[o], w.guard.now);
  }

  lemma Asked(p: Params, w0: World, w: World, req: Request, a: Id, o: Id)
    requires Stage(w0, w, req, a, Checked(o, w.guard.now))
    ensures var w' := Apply(p, w, FinalizeAsk(req));
            Stage(w0, w', req, a, Asking(o, w.guard.now, TtlFor(w.guard.deadlines[o], w.guard.now)))
            && w'.guard.claims == w.guard.claims
  {
  }

  lemma Granting(p: Params, w0: World, w: World, req: Request, a: Id, o: Id, ttlMs: int)
    requires Stage(w0, w, req, a, Asking(o, w.guard.now, ttlMs))
    requires p.gapMs > 0 && !Claimed(w.guard.claims, o, w.guard.now)
    ensures Stage(w0, Apply(p, w, FinalizeClaimed(req)), req, a, Holding(o, w.guard.now))
    ensures Behind(Apply(p, w, FinalizeClaimed(req)).guard, req, o, w.guard.now)
  {
  }

  lemma Beginning(p: Params, w0: World, w: World, req: Request, a: Id, o: Id)
    requires Stage(w0, w, req, a, Holding(o, w.guard.now)) && Behind(w.guard, req, o, w.guard.now) && p.gapMs > 0
    ensures var w' := Apply(p, w, FinalizeBegun(req));
            && req in w'.pending && w'.pending[req] == Finalizing(a)
            && req in w'.guard.requests && w'.guard.requests[req].Working? && w'.guard.requests[req].item == o
            && o in w'.store.orders && a in w'.store.accounts && Behind(w'.guard, req, o, w.guard.now)
            && w'.guard.now == w0.guard.now
            && w'.store == w0.store.(orders := w0.store.orders[o := w0.store.orders[o].(status := Processing)])
            && OrderStatusOf(w'.store, w'.store.orders[o], w'.guard.now).OrderProcessing?
  {
  }

  lemma Issuing(p: Params, w: World, req: Request, a: Id, o: Id, recordId: Id, certId: string)
    requires req in w.pending && w.pending[req] == Finalizing(a) && a in w.store.accounts
    requires req in w.guard.requests && w.guard.requests[req].Working? && w.guard.requests[req].item == o
    requires o in w.store.orders && recordId !in w.store.certificates && RenewalsSound(w.store)
    ensures var w' := Apply(p, w, FinalizeIssued(req, recordId, certId));
            && o in w'.store.orders && w'.store.orders[o].certificateId == Some(recordId)
            && OrderStatusOf(w'.store, w'.store.orders[o], w'.guard.now).OrderValid?
            && recordId in w'.store.certificates && w'.store.certificates[recordId].orderId == o
            && (certId != "" ==> CertificateByCertId(w'.store, certId) == Some(recordId))
  {
    IssuedRecord(p, w, FinalizeIssued(req, recordId, certId));
    OrderChanges(p, w, FinalizeIssued(req, recordId, certId), o);
  }

  /** The steps of one finalize that nothing holds up. */
  function Finalize(req: Request, a: Id, o: Id): seq<Event>
  {
    [Authenticate(req, a)] + [FinalizeLook(req, o)] + [FinalizeAsk(req)] + [FinalizeClaimed(req)]
    + [FinalizeBegun(req)]
  }

  lemma FinalizeSteps(p: Params, events: seq<Event>, req: Request, a: Id, o: Id)
    ensures After(p, events + Finalize(req, a, o)) ==
            Apply(p, Apply(p, Apply(p, Apply(p, Apply(p, After(p, events), Authenticate(req, a)),
                                             FinalizeLook(req, o)), FinalizeAsk(req)), FinalizeClaimed(req)),
                  FinalizeBegun(req))
  {
    var e1 := events + [Authenticate(req, a)];
    var e2 := e1 + [FinalizeLook(req, o)];
    var e3 := e2 + [FinalizeAsk(req)];
    var e4 := e3 + [FinalizeClaimed(req)];
    OneMore(p, events, Authenticate(req, a));
    OneMore(p, e1, FinalizeLook(req, o));
    OneMore(p, e2, FinalizeAsk(req));
    OneMore(p, e3, FinalizeClaimed(req));
    OneMore(p, e4, FinalizeBegun(req));
    assert events + Finalize(req, a, o) == e4 + [FinalizeBegun(req)];
  }

  /** A fresh request, an active account, its order shown "ready", and no claim on it. */
  predicate CanFinalize(w: World, req: Request, a: Id, o: Id)
  {
    && req !in w.pending && req !in w.guard.requests && !Claimed(w.guard.claims, o, w.guard.now)
    && o in w.store.orders && w.store.orders[o].accountId == a
    && a in w.store.accounts && w.store.accounts[a].status.ActiveAccount?
    && OrderStatusOf(w.store, w.store.orders[o], w.guard.now).OrderReady?
  }

  /** An order shown "ready" whose account is active and which no claim holds can be
      finalized: it is "processing" while the certificate is made. */
  lemma ReadyGoesToWork(p: Params, events: seq<Event>, req: Request, a: Id, o: Id)
    requires p.gapMs > 0
    requires CanFinalize(After(p, events), req, a, o)
    ensures var w := After(p, events + Finalize(req, a, o));
            && req in w.pending && w.pending[req] == Finalizing(a)
            && req in w.guard.requests && w.guard.requests[req].Working? && w.guard.requests[req].item == o
            && o in w.store.orders && a in w.store.accounts
            && Behind(w.guard, req, o, w.guard.now) && w.guard.now == After(p, events).guard.now
            && OrderStatusOf(w.store, w.store.orders[o], w.guard.now).OrderProcessing?
    ensures var s := After(p, events).store;
            After(p, events + Finalize(req, a, o)).store ==
            s.(orders := s.orders[o := s.orders[o].(status := Processing)])
  {
    var w0 := After(p, events);
    OrdersAlwaysOk(p, events);
    SignedIn(p, w0, req, a);
    var w1 := Apply(p, w0, Authenticate(req, a));
    Looked(p, w0, w1, req, a, o);
    var w2 := Apply(p, w1, FinalizeLook(req, o));
    Asked(p, w0, w2, req, a, o);
    var w3 := Apply(p, w2, FinalizeAsk(req));
    Granting(p, w0, w3, req, a, o, TtlFor(w2.guard.deadlines[o], w2.guard.now));
    var w4 := Apply(p, w3, FinalizeClaimed(req));
    Beginning(p, w0, w4, req, a, o);
    FinalizeSteps(p, events, req, a, o);
  }

  /** And "valid" once it is made, with the record that names it. */
  lemma ReadyCanBeFinalized(p: Params, events: seq<Event>, req: Request, a: Id, o: Id, recordId: Id, certId: string)
    requires p.gapMs > 0 && recordId !in After(p, events).store.certificates
    requires CanFinalize(After(p, events), req, a, o)
    ensures var w := After(p, events + Finalize(req, a, o) + [FinalizeIssued(req, recordId, certId)]);
            && o in w.store.orders && w.store.orders[o].certificateId == Some(recordId)
            && OrderStatusOf(w.store, w.store.orders[o], w.guard.now).OrderValid?
            && recordId in w.store.certificates && w.store.certificates[recordId].orderId == o
            && (certId != "" ==> CertificateByCertId(w.store, certId) == Some(recordId))
  {
    ReadyGoesToWork(p, events, req, a, o);
    AlwaysReplaceable(p, events + Finalize(req, a, o));
    Issuing(p, After(p, events + Finalize(req, a, o)), req, a, o, recordId, certId);
    OneMore(p, events + Finalize(req, a, o), FinalizeIssued(req, recordId, certId));
  }

  lemma Refusing(p: Params, w: World, req: Request, a: Id, o: Id)
    requires req in w.pending && w.pending[req] == Finalizing(a) && a in w.store.accounts
    requires req in w.guard.requests && w.guard.requests[req].Working? && w.guard.requests[req].item == o
    requires o in w.store.orders && Behind(w.guard, req, o, w.guard.now)
    ensures var w' := Apply(p, w, FinalizeRefused(req));
            && w'.store == w.store.(orders := w.store.orders[o := w.store.orders[o].(status := Ready)])
            && w'.guard == w.guard.(requests := w.guard.requests[req := Ended(o, w.guard.requests[req].at)])
            && req !in w'.pending
  {
  }

  lemma Releasing(p: Params, w: World, req: Request, o: Id)
    requires req in w.guard.requests && w.guard.requests[req].Ended? && w.guard.requests[req].item == o
    requires Behind(w.guard, req, o, w.guard.now)
    ensures var w' := Apply(p, w, FinalizeReleased(req));
            w' == w.(guard := w.guard.(claims := w.guard.claims - {o}))
  {
  }

  /** A refused issuance is undone: the store is what it was, and no claim is left on
      the order, so it can be finalized again at once. */
  lemma RefusedIsUndone(p: Params, events: seq<Event>, req: Request, a: Id, o: Id)
    requires p.gapMs > 0
    requires CanFinalize(After(p, events), req, a, o)
    ensures var w := After(p, events);
            var w' := After(p, events + Finalize(req, a, o) + [FinalizeRefused(req)] + [FinalizeReleased(req)]);
            && w'.store == w.store && w'.guard.now == w.guard.now
            && o !in w'.guard.claims && req !in w'.pending
  {
    ReadyMeans(After(p, events).store, After(p, events).store.orders[o], After(p, events).guard.now);
    ReadyGoesToWork(p, events, req, a, o);
    var begun := events + Finalize(req, a, o);
    Refusing(p, After(p, begun), req, a, o);
    OneMore(p, begun, FinalizeRefused(req));
    Releasing(p, After(p, begun + [FinalizeRefused(req)]), req, o);
    OneMore(p, begun + [FinalizeRefused(req)], FinalizeReleased(req));
    assert After(p, events).store.orders[o := After(p, events).store.orders[o]] == After(p, events).store.orders;
  }
}
