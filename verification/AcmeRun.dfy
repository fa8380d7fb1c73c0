/** One realm of the ACME server in one process: its requests interleave at
    every `await`. A request is one event a synchronous stretch of its handler;
    between them it is pending. Account and order objects are shared, so a
    pending request that holds one sees what the others write to it. */
module AcmeRun {
  import opened Wrappers
  import opened OnceGuard
  import opened AcmeStore

  /** What a request carries across an `await`. */
  datatype Pending =
    | Joining(thumbprint: string, contact: seq<string>, entry: Entry)
    | Signed(accountId: Id)
    | Finalizing(accountId: Id)

  /** `created` and `holder` record history: the orders made for each account,
      and the last request that began to finalize each order. */
  datatype World = World(
    guard: State,
    store: Store,
    pending: map<Request, Pending>,
    created: map<Id, seq<Id>>,
    holder: map<Id, Request>)

  const START_WORLD := World(START, EMPTY_STORE, map[], map[], map[])

  /** A finalize's claim reaching the table and the handler going on with it are
      two events, and so are a refusal and its release. */
  datatype Event =
    | Pass(ms: nat)
    | Look(req: Request, thumbprint: string, contact: seq<string>, entry: Entry)
    | Bound(req: Request, id: Id)
    | Authenticate(req: Request, accountId: Id)
    | UpdateAccount(req: Request, newContact: Option<seq<string>>, deactivate: bool)
    | ChangeKey(req: Request, thumbprint: string)
    | NewOrder(req: Request, orderId: Id, authzIds: seq<Id>, profile: string, replacing: Option<string>,
               lifetimeMs: nat)
    | DeactivateAuthz(req: Request, authzId: Id)
    | FinalizeLook(req: Request, orderId: Id)
    | FinalizeAsk(req: Request)
    | FinalizeClaimed(req: Request)
    | FinalizeBegun(req: Request)
    | FinalizeIssued(req: Request, recordId: Id, certId: string)
    | FinalizeRefused(req: Request)
    | FinalizeReleased(req: Request)
    | GiveUp(req: Request)
    | Sweep(orderId: Id)

  // ----- derived status (section 7.1.6 of RFC 8555) -------------------------

  predicate IsExpired(expires: int, nowMs: int)
  {
    expires <= nowMs
  }

  datatype AuthzShown = ShownValid | ShownExpired | ShownDeactivated | ShownInvalid

  function AuthzStatusOf(s: Store, authzId: Id, nowMs: int): AuthzShown
  {
    if authzId !in s.authzs then ShownInvalid
    else if s.authzs[authzId].status.DeactivatedAuthz? then ShownDeactivated
    else if IsExpired(s.authzs[authzId].expires, nowMs) then ShownExpired else ShownValid
  }

  datatype OrderShown = OrderReady | OrderProcessing | OrderValid | OrderInvalid

  function OrderStatusOf(s: Store, order: Order, nowMs: int): OrderShown
  {
    if order.status.Valid? then OrderValid
    else if order.status.Processing? then OrderProcessing
    else if IsExpired(order.expires, nowMs) then OrderInvalid
    else if exists a :: a in order.authzIds && AuthzStatusOf(s, a, nowMs) != ShownValid then OrderInvalid
    else OrderReady
  }

  // ----- what each event does to each part ----------------------------------

  predicate SignedFor(w: World, req: Request)
  {
    req in w.pending && w.pending[req].Signed? && w.pending[req].accountId in w.store.accounts
  }

  predicate FinalizingIn(w: World, req: Request)
  {
    req in w.pending && w.pending[req].Finalizing? && w.pending[req].accountId in w.store.accounts
    && req in w.guard.requests
  }

  /** A finalize whose order is still stored. */
  predicate OnStored(w: World, req: Request)
  {
    FinalizingIn(w, req) && w.guard.requests[req].item in w.store.orders
  }

  function Asker(w: World, req: Request): Id
    requires SignedFor(w, req)
  {
    w.pending[req].accountId
  }

  predicate ReplacesAllowed(s: Store, replacing: Option<string>, entry: Entry)
  {
    replacing.Some? ==>
      && CertificateByCertId(s, replacing.value).Some?
      && s.certificates[CertificateByCertId(s, replacing.value).value].entry == entry
      && s.certificates[CertificateByCertId(s, replacing.value).value].replacedBy.None?
  }

  predicate May(p: Params, w: World, e: Event)
  {
    match e
    case Pass(_) => true
    case Look(req, thumbprint, _, _) =>
      req !in w.pending && thumbprint != "" && AccountByThumbprint(w.store, thumbprint).None?
    case Bound(req, id) => req in w.pending && w.pending[req].Joining? && id !in w.store.accounts
    case Authenticate(req, accountId) =>
      req !in w.pending && accountId in w.store.accounts && w.store.accounts[accountId].status.ActiveAccount?
    case UpdateAccount(req, _, _) => SignedFor(w, req)
    case ChangeKey(req, thumbprint) =>
      && SignedFor(w, req) && thumbprint != ""
      && thumbprint != w.store.accounts[Asker(w, req)].thumbprint
      && AccountByThumbprint(w.store, thumbprint).None?
    case NewOrder(req, orderId, authzIds, _, replacing, lifetimeMs) =>
      && SignedFor(w, req)
      && Enabled(p, w.guard, Create(orderId, w.guard.now + lifetimeMs))
      && EachOnce(authzIds) && (forall a :: a in authzIds ==> a !in w.store.authzs)
      && ReplacesAllowed(w.store, replacing, w.store.accounts[Asker(w, req)].entry)
    case DeactivateAuthz(req, authzId) =>
      SignedFor(w, req) && authzId in w.store.authzs && w.store.authzs[authzId].accountId == Asker(w, req)
    case FinalizeLook(req, orderId) =>
      && SignedFor(w, req) && orderId in w.store.orders
      && w.store.orders[orderId].accountId == Asker(w, req)
      && OrderStatusOf(w.store, w.store.orders[orderId], w.guard.now).OrderReady?
      && Enabled(p, w.guard, Check(req, orderId))
    case FinalizeAsk(req) => FinalizingIn(w, req) && Enabled(p, w.guard, Ask(req))
    case FinalizeClaimed(req) => FinalizingIn(w, req) && Enabled(p, w.guard, Answer(req))
    case FinalizeBegun(req) =>
      OnStored(w, req) && Enabled(p, w.guard, Start(req)) && w.guard.now - w.guard.requests[req].at < p.gapMs
    case FinalizeIssued(req, recordId, _) =>
      OnStored(w, req) && Enabled(p, w.guard, Keep(req)) && recordId !in w.store.certificates
    case FinalizeRefused(req) => OnStored(w, req) && Enabled(p, w.guard, Keep(req))
    case GiveUp(req) =>
      && req in w.pending
      && (w.pending[req].Finalizing? ==>
            Enabled(p, w.guard, Abandon(req)) && !w.guard.requests[req].Working?)
    case FinalizeReleased(_) => true
    case Sweep(_) => true
  }

  function GuardStep(w: World, e: Event): Step
  {
    match e
    case Pass(ms) => Tick(ms)
    case NewOrder(_, orderId, _, _, _, lifetimeMs) => Create(orderId, w.guard.now + lifetimeMs)
    case FinalizeLook(req, orderId) => Check(req, orderId)
    case FinalizeAsk(req) => Ask(req)
    case FinalizeClaimed(req) => Answer(req)
    case FinalizeBegun(req) => Start(req)
    case FinalizeIssued(req, _, _) => Keep(req)
    case FinalizeRefused(req) => Abandon(req)
    case FinalizeReleased(req) => Free(req)
    case GiveUp(req) => if FinalizingIn(w, req) then Abandon(req) else Tick(0)
    case Sweep(orderId) => Purge(orderId)
    case _ => Tick(0)
  }

  predicate Granted(w: World, req: Request)
    requires req in w.guard.requests
  {
    !Claimed(w.guard.claims, w.guard.requests[req].item, w.guard.now)
  }

  function WithAccount(s: Store, id: Id, account: Account): Store
  {
    s.(accounts := s.accounts[id := account])
  }

  /** The certificate recorded, and the one it replaces marked. */
  function WithCertificate(s: Store, recordId: Id, certificate: Certificate, replacing: Option<string>): Store
  {
    var s1 := RecordCertificate(s, recordId, certificate);
    if replacing.None? || CertificateByCertId(s1, replacing.value).None? then s1
    else
      var was := CertificateByCertId(s1, replacing.value).value;
      s1.(certificates := s1.certificates[was := s1.certificates[was].(replacedBy := Some(recordId))])
  }

  function Ordered(w: World, e: Event): Order
    requires e.NewOrder? && SignedFor(w, e.req)
  {
    Order(Asker(w, e.req), Ready, e.profile, e.authzIds, w.guard.now + e.lifetimeMs, e.replacing, None)
  }

  function StoreAfter(p: Params, w: World, e: Event): Store
    requires May(p, w, e)
  {
    var s := w.store;
    match e
    case Bound(req, id) =>
      var j := w.pending[req];
      CreateAccount(s, id, j.thumbprint, j.contact, j.entry)
    case UpdateAccount(req, contact, deactivate) =>
      var account := s.accounts[Asker(w, req)];
      var told := if contact.Some? then account.(contact := contact.value) else account;
      WithAccount(s, Asker(w, req), if deactivate then told.(status := DeactivatedAccount) else told)
    case ChangeKey(req, thumbprint) => RekeyAccount(s, Asker(w, req), thumbprint)
    case NewOrder(req, orderId, authzIds, _, _, lifetimeMs) =>
      var authz := Authz(Asker(w, req), ValidAuthz, w.guard.now + lifetimeMs);
      CreateOrder(CreateAuthzs(s, authzIds, authz), Asker(w, req), orderId, Ordered(w, e), w.guard.now)
    case DeactivateAuthz(req, authzId) =>
      s.(authzs := s.authzs[authzId := s.authzs[authzId].(status := DeactivatedAuthz)])
    case FinalizeBegun(req) =>
      var o := w.guard.requests[req].item;
      WithOrder(s, o, s.orders[o].(status := Processing))
    case FinalizeIssued(req, recordId, certId) =>
      var o := w.guard.requests[req].item;
      var account := w.pending[req].accountId;
      var order := s.orders[o];
      var certificate := Certificate(account, o, s.accounts[account].entry, order.profile, certId, None);
      WithOrder(WithCertificate(s, recordId, certificate, order.replacing), o,
                order.(status := Valid, certificateId := Some(recordId)))
    case FinalizeRefused(req) =>
      var o := w.guard.requests[req].item;
      WithOrder(s, o, s.orders[o].(status := Ready))
    case _ => s
  }

  function PendingAfter(p: Params, w: World, e: Event): map<Request, Pending>
    requires May(p, w, e)
  {
    match e
    case Look(req, thumbprint, contact, entry) => w.pending[req := Joining(thumbprint, contact, entry)]
    case Authenticate(req, accountId) => w.pending[req := Signed(accountId)]
    case FinalizeLook(req, _) => w.pending[req := Finalizing(Asker(w, req))]
    case FinalizeClaimed(req) => if Granted(w, req) then w.pending else w.pending - {req}
    case Pass(_) => w.pending
    case FinalizeAsk(_) => w.pending
    case FinalizeBegun(_) => w.pending
    case FinalizeReleased(_) => w.pending
    case Sweep(_) => w.pending
    case _ => w.pending - {e.req}
  }

  function CreatedAfter(p: Params, w: World, e: Event): map<Id, seq<Id>>
    requires May(p, w, e)
  {
    match e
    case Bound(_, id) => w.created[id := []]
    case NewOrder(req, orderId, _, _, _, _) =>
      var a := Asker(w, req);
      w.created[a := (if a in w.created then w.created[a] else []) + [orderId]]
    case _ => w.created
  }

  function HolderAfter(p: Params, w: World, e: Event): map<Id, Request>
    requires May(p, w, e)
  {
    match e
    case FinalizeBegun(req) => w.holder[w.guard.requests[req].item := req]
    case _ => w.holder
  }

  function Apply(p: Params, w: World, e: Event): World
  {
    if !May(p, w, e) then w
    else World(Do(p, w.guard, GuardStep(w, e)), StoreAfter(p, w, e), PendingAfter(p, w, e),
               CreatedAfter(p, w, e), HolderAfter(p, w, e))
  }

  function After(p: Params, events: seq<Event>): World
  {
    if events == [] then START_WORLD
    else Apply(p, After(p, events[..|events| - 1]), events[|events| - 1])
  }
}
