/** What changes what: each part of a realm's state is changed by the events of
    its own handlers and by no others, and by those as the handlers say. */
module AcmeChanges {
  import opened Wrappers
  import opened OnceGuard
  import opened AcmeStore
  import opened AcmeRun
  import opened AcmeSafety

  // ----- certificates -------------------------------------------------------

  /** The order a finalize's request is about. */
  function Finalized(w: World, e: Event): Order
    requires e.FinalizeIssued? && OnStored(w, e.req)
  {
    w.store.orders[w.guard.requests[e.req].item]
  }

  lemma IssuedIs(p: Params, w: World, e: Event)
    requires May(p, w, e) && e.FinalizeIssued?
    ensures var account := w.pending[e.req].accountId;
            var record := Certificate(account, w.guard.requests[e.req].item, w.store.accounts[account].entry,
                                      Finalized(w, e).profile, e.certId, None);
            var recorded := WithCertificate(w.store, e.recordId, record, Finalized(w, e).replacing);
            && e.recordId !in w.store.certificates
            && Apply(p, w, e).store.certificates == recorded.certificates
            && Apply(p, w, e).store.renewals == recorded.renewals
  {
  }

  /** Of the records there were, an issued certificate marks the one its order
      replaces and no other. */
  lemma IssuedMarks(p: Params, w: World, e: Event)
    requires May(p, w, e) && e.FinalizeIssued? && RenewalsSound(w.store)
    ensures var s, s' := w.store, Apply(p, w, e).store;
            && (forall c :: c in s'.certificates <==> c in s.certificates || c == e.recordId)
            && forall c :: c in s.certificates ==>
                 s'.certificates[c] ==
                 if IsReplaced(s, Finalized(w, e).replacing, e.certId, c)
                 then s.certificates[c].(replacedBy := Some(e.recordId)) else s.certificates[c]
  {
    IssuedIs(p, w, e);
    var account := w.pending[e.req].accountId;
    var record := Certificate(account, w.guard.requests[e.req].item, w.store.accounts[account].entry,
                              Finalized(w, e).profile, e.certId, None);
    forall c: Id { RecordedMarks(w.store, e.recordId, record, Finalized(w, e).replacing, c); }
  }

  /** The new record is its order's and its account's, and replaced by itself only
      where the order replaces the very certID it was issued with. */
  lemma IssuedRecord(p: Params, w: World, e: Event)
    requires May(p, w, e) && e.FinalizeIssued? && RenewalsSound(w.store)
    ensures var s, s', order := w.store, Apply(p, w, e).store, Finalized(w, e);
            var account := w.pending[e.req].accountId;
            && e.recordId !in s.certificates && e.recordId in s'.certificates
            && s'.certificates[e.recordId] ==
               Certificate(account, w.guard.requests[e.req].item, s.accounts[account].entry, order.profile, e.certId,
                           if e.certId != "" && order.replacing == Some(e.certId) then Some(e.recordId) else None)
            && s'.renewals == if e.certId == "" then s.renewals else s.renewals[e.certId := e.recordId]
  {
    IssuedIs(p, w, e);
    var account := w.pending[e.req].accountId;
    RecordedItself(w.store, e.recordId,
                   Certificate(account, w.guard.requests[e.req].item, w.store.accounts[account].entry,
                               Finalized(w, e).profile, e.certId, None),
                   Finalized(w, e).replacing);
  }

  /** No other event touches a record or the renewal index. */
  lemma OnlyIssuedRecords(p: Params, w: World, e: Event)
    requires !(e.FinalizeIssued? && May(p, w, e))
    ensures Apply(p, w, e).store.certificates == w.store.certificates
    ensures Apply(p, w, e).store.renewals == w.store.renewals
  {
    if May(p, w, e) {
      CertificatesUntouched(p, w, e);
    }
  }

  /** The renewal index is sound, holds no empty certID, and knows what every
      stored order replaces. */
  ghost predicate Replaceable(s: Store)
  {
    && RenewalsSound(s) && "" !in s.renewals
    && forall o :: o in s.orders && s.orders[o].replacing.Some? ==> s.orders[o].replacing.value in s.renewals
  }

  lemma IndexSoundIssued(p: Params, w: World, e: Event)
    requires May(p, w, e) && e.FinalizeIssued? && RenewalsSound(w.store) && "" !in w.store.renewals
    ensures RenewalsSound(Apply(p, w, e).store) && "" !in Apply(p, w, e).store.renewals
    ensures w.store.renewals.Keys <= Apply(p, w, e).store.renewals.Keys
  {
    IssuedMarks(p, w, e);
    IssuedRecord(p, w, e);
  }

  lemma ReplaceableIssued(p: Params, w: World, e: Event)
    requires May(p, w, e) && e.FinalizeIssued? && Replaceable(w.store)
    ensures Replaceable(Apply(p, w, e).store)
  {
    IndexSoundIssued(p, w, e);
    OrdersAfter(p, w, e);
  }

  lemma ReplaceableOrdered(p: Params, w: World, e: Event)
    requires May(p, w, e) && e.NewOrder? && Replaceable(w.store)
    ensures Replaceable(Apply(p, w, e).store)
  {
    OnlyIssuedRecords(p, w, e);
    StatusUntouched(p, w, e);
    ReplacesKnown(p, w, e);
  }

  lemma ReplacesKnown(p: Params, w: World, e: Event)
    requires May(p, w, e) && e.NewOrder?
    ensures e.orderId in StoreAfter(p, w, e).orders && StoreAfter(p, w, e).orders[e.orderId].replacing == e.replacing
    ensures e.replacing.Some? ==> e.replacing.value in w.store.renewals
  {
  }

  lemma ReplaceableKept(p: Params, w: World, e: Event)
    requires May(p, w, e) && Replaceable(w.store)
    ensures Replaceable(Apply(p, w, e).store)
  {
    if e.FinalizeIssued? {
      ReplaceableIssued(p, w, e);
    } else if e.NewOrder? {
      ReplaceableOrdered(p, w, e);
    } else {
      OnlyIssuedRecords(p, w, e);
      OrdersAfter(p, w, e);
    }
  }

  lemma {:induction false} AlwaysReplaceable(p: Params, events: seq<Event>)
    ensures Replaceable(After(p, events).store)
  {
    if events != [] {
      var w, e := After(p, events[..|events| - 1]), events[|events| - 1];
      AlwaysReplaceable(p, events[..|events| - 1]);
      if May(p, w, e) {
        ReplaceableKept(p, w, e);
      }
    }
  }

  /** In every run: when an order that replaces a certificate is finalized, the index
      names that certificate's record, and the record is marked with the new one. */
  lemma ReplacedIsMarked(p: Params, events: seq<Event>, e: Event, certId: string)
    requires e.FinalizeIssued? && May(p, After(p, events), e)
    requires Finalized(After(p, events), e).replacing == Some(certId) && certId != e.certId
    ensures var s, s' := After(p, events).store, After(p, events + [e]).store;
            && certId in s.renewals && s.renewals[certId] in s.certificates
            && s'.renewals[certId] == s.renewals[certId]
            && s'.certificates[s.renewals[certId]].replacedBy == Some(e.recordId)
            && forall c :: c in s.certificates && c != s.renewals[certId] ==> s'.certificates[c] == s.certificates[c]
  {
    AlwaysReplaceable(p, events);
    assert (events + [e])[..|events + [e]| - 1] == events;
    IssuedMarks(p, After(p, events), e);
    IssuedRecord(p, After(p, events), e);
  }

  /** What new-order asks of the certificate it is to replace. */
  lemma ReplacesOnlyUnreplaced(p: Params, w: World, e: Event, certId: string)
    requires May(p, w, e) && e.NewOrder? && e.replacing == Some(certId)
    ensures certId in w.store.renewals && w.store.renewals[certId] in w.store.certificates
    ensures var record := w.store.certificates[w.store.renewals[certId]];
            && record.replacedBy.None? && e.req in w.pending && w.pending[e.req].Signed?
            && w.pending[e.req].accountId in w.store.accounts
            && record.entry == w.store.accounts[w.pending[e.req].accountId].entry
  {
  }

  lemma MarkedStays(p: Params, w: World, e: Event, c: Id)
    requires RenewalsSound(w.store) && c in w.store.certificates && w.store.certificates[c].replacedBy.Some?
    ensures c in Apply(p, w, e).store.certificates && Apply(p, w, e).store.certificates[c].replacedBy.Some?
  {
    if e.FinalizeIssued? && May(p, w, e) {
      IssuedMarks(p, w, e);
    } else {
      OnlyIssuedRecords(p, w, e);
    }
  }

  lemma {:induction false} MarkedForGood(p: Params, events: seq<Event>, more: seq<Event>, c: Id)
    requires c in After(p, events).store.certificates && After(p, events).store.certificates[c].replacedBy.Some?
    ensures c in After(p, events + more).store.certificates
    ensures After(p, events + more).store.certificates[c].replacedBy.Some?
  {
    if more == [] {
      assert events + more == events;
    } else {
      var last := |more| - 1;
      MarkedForGood(p, events, more[..last], c);
      AlwaysReplaceable(p, events + more[..last]);
      Extend(p, events, more);
      MarkedStays(p, After(p, events + more[..last]), more[last], c);
    }
  }

  /** Nothing is replaced twice: however the run goes on after that, while the index
      names the marked record no order may replace it. */
  lemma NeverReplacedAgain(p: Params, events: seq<Event>, e: Event, more: seq<Event>, again: Event, certId: string)
    requires e.FinalizeIssued? && May(p, After(p, events), e)
    requires Finalized(After(p, events), e).replacing == Some(certId) && certId != e.certId
    requires again.NewOrder? && again.replacing == Some(certId)
    requires var s, s' := After(p, events).store, After(p, events + [e] + more).store;
             certId in s'.renewals && certId in s.renewals && s'.renewals[certId] == s.renewals[certId]
    ensures !May(p, After(p, events + [e] + more), again)
  {
    ReplacedIsMarked(p, events, e, certId);
    var c := After(p, events).store.renewals[certId];
    MarkedForGood(p, events + [e], more, c);
    if May(p, After(p, events + [e] + more), again) {
      ReplacesOnlyUnreplaced(p, After(p, events + [e] + more), again, certId);
    }
  }

  /** Placing an order takes nothing from another that replaces the same certificate:
      if both may be placed, the second still may be after the first. */
  lemma BothMayReplace(p: Params, w: World, first: Event, second: Event)
    requires May(p, w, first) && first.NewOrder? && May(p, w, second) && second.NewOrder?
    requires first.replacing == second.replacing && first.req != second.req && first.orderId != second.orderId
    requires forall a :: a in second.authzIds ==> a !in first.authzIds
    ensures May(p, Apply(p, w, first), second)
  {
    OnlyIssuedRecords(p, w, first);
    PlacedBeside(p, w, first, second);
  }

  lemma PlacedBeside(p: Params, w: World, first: Event, second: Event)
    requires May(p, w, first) && first.NewOrder? && May(p, w, second) && second.NewOrder?
    requires first.req != second.req && first.orderId != second.orderId
    ensures var w' := Apply(p, w, first);
            && SignedFor(w', second.req) && Asker(w', second.req) == Asker(w, second.req)
            && w'.store.accounts[Asker(w, second.req)].entry == w.store.accounts[Asker(w, second.req)].entry
            && second.orderId !in w'.guard.deadlines && w'.guard.now == w.guard.now
            && forall a :: a in w'.store.authzs ==> a in w.store.authzs || a in first.authzIds
  {
  }

  /** So a certificate can be replaced twice: a record that is marked is marked anew
      exactly by a finalize of an order that replaces it. */
  lemma MarkedAnewIff(p: Params, w: World, e: Event, c: Id)
    requires RenewalsSound(w.store) && c in w.store.certificates && w.store.certificates[c].replacedBy.Some?
    ensures c in Apply(p, w, e).store.certificates
    ensures Apply(p, w, e).store.certificates[c].replacedBy != w.store.certificates[c].replacedBy ==>
              e.FinalizeIssued? && May(p, w, e) && IsReplaced(w.store, Finalized(w, e).replacing, e.certId, c)
    ensures e.FinalizeIssued? && May(p, w, e) && IsReplaced(w.store, Finalized(w, e).replacing, e.certId, c) ==>
              Apply(p, w, e).store.certificates[c].replacedBy == Some(e.recordId)
  {
    if e.FinalizeIssued? && May(p, w, e) {
      IssuedMarks(p, w, e);
    } else {
      OnlyIssuedRecords(p, w, e);
    }
  }

  // ----- accounts -----------------------------------------------------------

  /** A request signed by this account. */
  predicate By(w: World, req: Request, a: Id)
  {
    req in w.pending && w.pending[req] == Signed(a)
  }

  /** An account's entry never changes; its contact and its status only by its own
      update, its key only by its own key change. */
  lemma AccountChanges(p: Params, w: World, e: Event, a: Id)
    requires May(p, w, e) && a in w.store.accounts
    ensures a in Apply(p, w, e).store.accounts
    ensures var was, now := w.store.accounts[a], Apply(p, w, e).store.accounts[a];
            && now.entry == was.entry
            && now.thumbprint == (if e.ChangeKey? && By(w, e.req, a) then e.thumbprint else was.thumbprint)
            && now.contact ==
               (if e.UpdateAccount? && By(w, e.req, a) && e.newContact.Some? then e.newContact.value else was.contact)
            && now.status ==
               (if e.UpdateAccount? && By(w, e.req, a) && e.deactivate then DeactivatedAccount else was.status)
  {
  }

  /** An account comes to be by a bind alone: active, with the key and the entry the
      request was looked up with, and no order. */
  lemma BoundAccount(p: Params, w: World, e: Event)
    requires May(p, w, e)
    ensures var s, s' := w.store, Apply(p, w, e).store;
            && (!e.Bound? ==> s'.accounts.Keys == s.accounts.Keys)
            && (e.Bound? ==>
                  && e.req in w.pending && w.pending[e.req].Joining?
                  && var j := w.pending[e.req];
                     && s'.accounts == s.accounts[e.id := Account(j.thumbprint, ActiveAccount, j.contact, j.entry, [])]
                     && s'.accountKeys == s.accountKeys[j.thumbprint := e.id])
  {
  }

  /** Deactivated, an account signs nothing any more, however the run goes on. */
  lemma DeactivatedSignsNothing(p: Params, events: seq<Event>, more: seq<Event>, a: Id, req: Request)
    requires a in After(p, events).store.accounts && After(p, events).store.accounts[a].status.DeactivatedAccount?
    ensures !May(p, After(p, events + more), Authenticate(req, a))
  {
    AccountsForGood(p, events, more);
  }

  // ----- authorizations and orders ------------------------------------------

  /** An authorization changes only by being deactivated, and only by its account. */
  lemma AuthzChanges(p: Params, w: World, e: Event)
    requires May(p, w, e) && !e.NewOrder?
    ensures Apply(p, w, e).store.authzs ==
            if e.DeactivateAuthz?
            then w.store.authzs[e.authzId := w.store.authzs[e.authzId].(status := DeactivatedAuthz)]
            else w.store.authzs
    ensures e.DeactivateAuthz? ==> e.authzId in w.store.authzs && By(w, e.req, w.store.authzs[e.authzId].accountId)
  {
  }

  /** The store of a new-order before it is pruned. */
  function Authorized(w: World, e: Event): Store
    requires e.NewOrder? && SignedFor(w, e.req)
  {
    CreateAuthzs(w.store, e.authzIds, Authz(Asker(w, e.req), ValidAuthz, w.guard.now + e.lifetimeMs))
  }

  lemma AuthorizedIs(w: World, e: Event)
    requires e.NewOrder? && SignedFor(w, e.req)
    ensures var s' := Authorized(w, e);
            && s'.orders == w.store.orders
            && (forall a :: a in s'.authzs <==> a in w.store.authzs || a in e.authzIds)
            && (forall a :: a in s'.authzs ==>
                  s'.authzs[a] ==
                  if a in e.authzIds then Authz(w.pending[e.req].accountId, ValidAuthz, w.guard.now + e.lifetimeMs)
                  else w.store.authzs[a])
  {
  }

  lemma OrderedIs(p: Params, w: World, e: Event)
    requires May(p, w, e) && e.NewOrder?
    ensures var pruned := PruneOrders(Authorized(w, e), w.guard.now);
            && Apply(p, w, e).store.orders == pruned.orders[e.orderId := Ordered(w, e)]
            && Apply(p, w, e).store.authzs == pruned.authzs
  {
  }

  /** new-order: exactly the orders that never became valid and ended more than a
      day ago go, every other stays as it is, and the new one is ready. */
  lemma OrderedOrders(p: Params, w: World, e: Event)
    requires May(p, w, e) && e.NewOrder? && OrdersOk(w)
    ensures var s, s' := w.store, Apply(p, w, e).store;
            && e.orderId !in s.orders
            && (forall o :: o in s'.orders <==>
                  o == e.orderId
                  || (o in s.orders && (s.orders[o].status.Valid? || s.orders[o].expires + 86400000 >= w.guard.now)))
            && (forall o :: o in s'.orders && o != e.orderId ==> s'.orders[o] == s.orders[o])
            && s'.orders[e.orderId] ==
               Order(w.pending[e.req].accountId, Ready, e.profile, e.authzIds, w.guard.now + e.lifetimeMs, e.replacing,
                     None)
  {
    AuthzsAdded(w.store, e.authzIds, Authz(Asker(w, e.req), ValidAuthz, w.guard.now + e.lifetimeMs));
    PruneExact(Authorized(w, e), w.guard.now);
    OrderedIs(p, w, e);
  }

  /** Its authorizations are valid for as long as it, and no stored order's changes. */
  lemma OrderedAuthzs(p: Params, w: World, e: Event)
    requires May(p, w, e) && e.NewOrder? && OrdersOk(w)
    ensures var s, s' := w.store, Apply(p, w, e).store;
            && (forall a :: a in e.authzIds ==>
                  a in s'.authzs
                  && s'.authzs[a] == Authz(w.pending[e.req].accountId, ValidAuthz, w.guard.now + e.lifetimeMs))
            && (forall a :: a in s'.authzs && a !in e.authzIds ==> a in s.authzs && s'.authzs[a] == s.authzs[a])
  {
    AuthzsAdded(w.store, e.authzIds, Authz(Asker(w, e.req), ValidAuthz, w.guard.now + e.lifetimeMs));
    PruneExact(Authorized(w, e), w.guard.now);
    AuthorizedIs(w, e);
    OrderedIs(p, w, e);
  }

  /** Every other event changes at most one stored order, the one whose finalize it
      is, and in its status and certificate alone. */
  lemma OrderChanges(p: Params, w: World, e: Event, o: Id)
    requires May(p, w, e) && !e.NewOrder?
    ensures o in Apply(p, w, e).store.orders <==> o in w.store.orders
    ensures o in w.store.orders ==>
              var was, now := w.store.orders[o], Apply(p, w, e).store.orders[o];
              if MovesStatus(e) && w.guard.requests[e.req].item == o
              then now == if e.FinalizeIssued? then was.(status := Valid, certificateId := Some(e.recordId))
                          else if e.FinalizeBegun? then was.(status := Processing) else was.(status := Ready)
              else now == was
  {
  }

  // ----- requests -----------------------------------------------------------

  predicate Starts(e: Event, r: Request)
  {
    (e.Look? || e.Authenticate? || e.FinalizeLook?) && e.req == r
  }

  /** A claim that comes too late ends its request, as its answer does any other. */
  predicate Ends(w: World, e: Event, r: Request)
  {
    || ((e.Bound? || e.UpdateAccount? || e.ChangeKey? || e.NewOrder? || e.DeactivateAuthz? || e.FinalizeIssued?
         || e.FinalizeRefused? || e.GiveUp?) && e.req == r)
    || (e.FinalizeClaimed? && e.req == r && r in w.guard.requests
        && Claimed(w.guard.claims, w.guard.requests[r].item, w.guard.now))
  }

  lemma RequestsChange(p: Params, w: World, e: Event, r: Request)
    requires May(p, w, e)
    ensures r in Apply(p, w, e).pending <==> Starts(e, r) || (r in w.pending && !Ends(w, e, r))
    ensures r in w.pending && !Starts(e, r) && !Ends(w, e, r) ==> Apply(p, w, e).pending[r] == w.pending[r]
  {
  }

  /** What a request carries on: the key and the entry it was looked up with, the account
      whose key signed it, and while it finalizes that account still. */
  lemma StartsWith(p: Params, w: World, e: Event)
    requires May(p, w, e)
    ensures e.Look? ==> Apply(p, w, e).pending[e.req] == Joining(e.thumbprint, e.contact, e.entry)
    ensures e.Authenticate? ==> Apply(p, w, e).pending[e.req] == Signed(e.accountId)
    ensures e.FinalizeLook? ==>
              && e.req in w.pending && w.pending[e.req].Signed?
              && Apply(p, w, e).pending[e.req] == Finalizing(w.pending[e.req].accountId)
  {
  }

  /** A finalize given up is over, and one at work is not given up. */
  lemma GivenUpIsOver(p: Params, w: World, e: Event)
    requires May(p, w, e) && e.GiveUp? && FinalizingIn(w, e.req)
    ensures !w.guard.requests[e.req].Working? && Apply(p, w, e).store == w.store
    ensures Apply(p, w, e).guard.requests ==
            w.guard.requests[e.req := Ended(w.guard.requests[e.req].item, w.guard.requests[e.req].at)]
    ensures Apply(p, w, e).guard.claims == w.guard.claims
  {
  }
}
