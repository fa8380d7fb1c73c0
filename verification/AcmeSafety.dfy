/** What every run of one realm keeps. */
module AcmeSafety {
  import opened Wrappers
  import opened OnceGuard
  import opened ProcessGuard
  import opened AcmeStore
  import opened AcmeRun

  // ----- accounts and their index -------------------------------------------

  lemma AccountsAfter(p: Params, w: World, e: Event)
    requires May(p, w, e)
    ensures var s, s' := w.store, StoreAfter(p, w, e);
            && (!e.Bound? && !e.ChangeKey? ==> s'.accountKeys == s.accountKeys && s'.accounts.Keys == s.accounts.Keys)
            && (forall a :: a in s.accounts && !e.ChangeKey? && !(e.Bound? && a == e.id) ==>
                  a in s'.accounts && s'.accounts[a].thumbprint == s.accounts[a].thumbprint)
  {
  }

  lemma IndexKept(p: Params, w: World, e: Event)
    requires May(p, w, e) && IndexSound(w.store)
    ensures IndexSound(StoreAfter(p, w, e))
  {
    if e.Bound? {
      var j := w.pending[e.req];
      CreateKeepsIndex(w.store, e.id, j.thumbprint, j.contact, j.entry);
    } else if e.ChangeKey? {
      RekeyKeepsIndex(w.store, Asker(w, e.req), e.thumbprint);
    } else {
      AccountsAfter(p, w, e);
    }
  }

  /** In every state of every interleaving the index names only accounts that
      exist and have the key. */
  lemma {:induction false} IndexAlwaysSound(p: Params, events: seq<Event>)
    ensures IndexSound(After(p, events).store)
  {
    if events != [] {
      var w, e := After(p, events[..|events| - 1]), events[|events| - 1];
      IndexAlwaysSound(p, events[..|events| - 1]);
      if May(p, w, e) {
        IndexKept(p, w, e);
      }
    }
  }

  /** The guard of a bind that looks the key up again as it creates the account. */
  predicate FreshBind(p: Params, w: World, e: Event)
  {
    e.Bound? && May(p, w, e) ==> w.pending[e.req].thumbprint !in w.store.accountKeys
  }

  lemma CompletenessStep(p: Params, w: World, e: Event)
    requires May(p, w, e) && IndexSound(w.store) && IndexComplete(w.store)
    ensures IndexComplete(StoreAfter(p, w, e)) <==> FreshBind(p, w, e)
  {
    if e.Bound? {
      var j := w.pending[e.req];
      CreateKeepsIndex(w.store, e.id, j.thumbprint, j.contact, j.entry);
    } else if e.ChangeKey? {
      assert e.thumbprint !in w.store.accountKeys;
      RekeyKeepsIndex(w.store, Asker(w, e.req), e.thumbprint);
    } else {
      AccountsAfter(p, w, e);
    }
  }

  /** Complete in every state of the run. */
  ghost predicate CompleteThrough(p: Params, events: seq<Event>)
  {
    IndexComplete(After(p, events).store) && (events != [] ==> CompleteThrough(p, events[..|events| - 1]))
  }

  /** Every bind of the run a fresh one. */
  predicate FreshThrough(p: Params, events: seq<Event>)
  {
    events != [] ==>
      && FreshThrough(p, events[..|events| - 1])
      && FreshBind(p, After(p, events[..|events| - 1]), events[|events| - 1])
  }

  /** One account a key: every account is found by its key in every state of a
      run exactly when each account was created under a key nobody had then. */
  lemma {:induction false} OneAccountPerKey(p: Params, events: seq<Event>)
    ensures CompleteThrough(p, events) <==> FreshThrough(p, events)
  {
    if events != [] {
      var w, e := After(p, events[..|events| - 1]), events[|events| - 1];
      OneAccountPerKey(p, events[..|events| - 1]);
      IndexAlwaysSound(p, events[..|events| - 1]);
      if May(p, w, e) && IndexComplete(w.store) {
        CompletenessStep(p, w, e);
      }
    }
  }

  lemma Unroll(p: Params, events: seq<Event>, n: nat)
    requires n < |events|
    ensures After(p, events[..n + 1]) == Apply(p, After(p, events[..n]), events[n])
  {
    assert events[..n + 1][..n] == events[..n];
  }

  function Race(entry: Entry): seq<Event>
  {
    [Look(0, "key", [], entry), Look(1, "key", [], entry), Bound(0, "a"), Bound(1, "b")]
  }

  lemma BothLooked(p: Params, entry: Entry)
    ensures After(p, Race(entry)[..2]) ==
            START_WORLD.(guard := After(p, Race(entry)[..2]).guard,
                         pending := map[0 := Joining("key", [], entry), 1 := Joining("key", [], entry)])
  {
    Unroll(p, Race(entry), 0);
    Unroll(p, Race(entry), 1);
  }

  lemma OneBound(p: Params, entry: Entry)
    ensures var w := After(p, Race(entry)[..3]);
            && w.store == CreateAccount(EMPTY_STORE, "a", "key", [], entry)
            && w.pending == map[1 := Joining("key", [], entry)]
  {
    BothLooked(p, entry);
    Unroll(p, Race(entry), 2);
  }

  lemma BothBound(p: Params, entry: Entry)
    ensures After(p, Race(entry)).store ==
            CreateAccount(CreateAccount(EMPTY_STORE, "a", "key", [], entry), "b", "key", [], entry)
  {
    OneBound(p, entry);
    Unroll(p, Race(entry), 3);
    assert Race(entry)[..4] == Race(entry);
  }

  /** Two requests signed with one key, each past its lookup before either is
      bound, make two accounts of it. */
  lemma TwoAccountsOneKey(p: Params, entry: Entry)
    ensures var w := After(p, Race(entry));
            && w.store.accounts.Keys == {"a", "b"}
            && w.store.accounts["a"].thumbprint == w.store.accounts["b"].thumbprint == "key"
            && AccountByThumbprint(w.store, "key") == Some("b")
  {
    BothBound(p, entry);
  }

  // ----- orders and authorizations ------------------------------------------

  ghost predicate OrdersDated(w: World)
  {
    forall o :: o in w.store.orders ==>
      && o in w.guard.deadlines && w.guard.deadlines[o] == w.store.orders[o].expires
      && w.store.orders[o].accountId in w.store.accounts
  }

  ghost predicate OrdersOk(w: World)
  {
    AuthzsOwned(w.store) && OrdersDated(w)
  }

  /** What an order keeps from creation. */
  predicate SameTerms(a: Order, b: Order)
  {
    && a.accountId == b.accountId && a.profile == b.profile && a.authzIds == b.authzIds
    && a.expires == b.expires && a.replacing == b.replacing
  }

  lemma OrdersAfter(p: Params, w: World, e: Event)
    requires May(p, w, e)
    ensures var s, s' := w.store, StoreAfter(p, w, e);
            && (!e.NewOrder? ==> s'.orders.Keys == s.orders.Keys && s'.authzs.Keys == s.authzs.Keys)
            && (!e.NewOrder? ==> forall o :: o in s.orders ==> SameTerms(s.orders[o], s'.orders[o]))
  {
  }

  lemma NewOrderOwnsItsOwn(p: Params, w: World, e: Event)
    requires May(p, w, e) && OrdersOk(w) && e.NewOrder?
    ensures AuthzsOwned(StoreAfter(p, w, e))
  {
    var authz := Authz(Asker(w, e.req), ValidAuthz, w.guard.now + e.lifetimeMs);
    NewOrderOwned(w.store, Asker(w, e.req), e.orderId, Ordered(w, e), authz, w.guard.now);
  }

  lemma NewOrderKept(p: Params, w: World, e: Event)
    requires May(p, w, e) && OrdersOk(w) && e.NewOrder?
    ensures OrdersOk(Apply(p, w, e))
  {
    NewOrderOwnsItsOwn(p, w, e);
  }

  lemma OrdersKept(p: Params, w: World, e: Event)
    requires May(p, w, e) && OrdersOk(w)
    ensures OrdersOk(Apply(p, w, e))
  {
    if e.NewOrder? {
      NewOrderKept(p, w, e);
    } else {
      OrdersAfter(p, w, e);
      assert AuthzsOwned(StoreAfter(p, w, e)) by {
        forall o, o' | o in w.store.orders && o' in w.store.orders && o != o'
          ensures Apart(StoreAfter(p, w, e).orders[o].authzIds, StoreAfter(p, w, e).orders[o'].authzIds)
        {
          assert SameTerms(w.store.orders[o], StoreAfter(p, w, e).orders[o]);
        }
      }
      DeadlinesAfter(p, w.guard, GuardStep(w, e));
      assert forall a :: a in w.store.accounts ==> a in StoreAfter(p, w, e).accounts;
    }
  }

  /** In every state: every authorization of a stored order exists, and stored
      orders share none. */
  lemma {:induction false} OrdersAlwaysOk(p: Params, events: seq<Event>)
    ensures OrdersOk(After(p, events))
  {
    if events != [] {
      var w, e := After(p, events[..|events| - 1]), events[|events| - 1];
      OrdersAlwaysOk(p, events[..|events| - 1]);
      if May(p, w, e) {
        OrdersKept(p, w, e);
      }
    }
  }

  // ----- the orders list ----------------------------------------------------

  ghost predicate Listed(w: World)
  {
    && w.created.Keys == w.store.accounts.Keys
    && forall a :: a in w.created ==>
         w.store.accounts[a].orderIds == LastOf(w.created[a], MAX_ORDERS_PER_ACCOUNT)
  }

  lemma LastOfGrows<T>(items: seq<T>, item: T, n: nat)
    requires n > 0
    ensures LastOf(LastOf(items, n) + [item], n) == LastOf(items + [item], n)
  {
  }

  lemma NewOrderListed(p: Params, w: World, e: Event)
    requires May(p, w, e) && Listed(w) && e.NewOrder?
    ensures Listed(Apply(p, w, e))
  {
    LastOfGrows(w.created[Asker(w, e.req)], e.orderId, MAX_ORDERS_PER_ACCOUNT);
  }

  lemma ListsUntouched(p: Params, w: World, e: Event)
    requires May(p, w, e) && !e.NewOrder?
    ensures forall a :: a in w.store.accounts && !(e.Bound? && a == e.id) ==>
      a in StoreAfter(p, w, e).accounts && StoreAfter(p, w, e).accounts[a].orderIds == w.store.accounts[a].orderIds
    ensures StoreAfter(p, w, e).accounts.Keys ==
            if e.Bound? then w.store.accounts.Keys + {e.id} else w.store.accounts.Keys
  {
  }

  lemma ListedKept(p: Params, w: World, e: Event)
    requires May(p, w, e) && Listed(w)
    ensures Listed(Apply(p, w, e))
  {
    if e.NewOrder? {
      NewOrderListed(p, w, e);
    } else {
      ListsUntouched(p, w, e);
    }
  }

  /** In every state an account lists its last thousand orders, oldest first. */
  lemma {:induction false} AlwaysListed(p: Params, events: seq<Event>)
    ensures Listed(After(p, events))
  {
    if events != [] {
      var w, e := After(p, events[..|events| - 1]), events[|events| - 1];
      AlwaysListed(p, events[..|events| - 1]);
      if May(p, w, e) {
        ListedKept(p, w, e);
      }
    }
  }

  /** Said of the list itself: as many as there were made, up to a thousand, and
      those made last. */
  lemma ListIsTheLast(p: Params, events: seq<Event>, a: Id)
    requires a in After(p, events).store.accounts
    ensures a in After(p, events).created
    ensures var made, listed := After(p, events).created[a], After(p, events).store.accounts[a].orderIds;
            && |listed| == (if |made| < 1000 then |made| else 1000)
            && listed == made[|made| - |listed|..]
  {
    AlwaysListed(p, events);
    LastOfIs(After(p, events).created[a], MAX_ORDERS_PER_ACCOUNT);
  }

  lemma MadeLast(p: Params, w: World, e: Event)
    requires May(p, w, e) && e.NewOrder?
    ensures var a, w' := w.pending[e.req].accountId, Apply(p, w, e);
            && a in w.store.accounts && a in w'.created && w'.created[a] != []
            && w'.created[a] == (if a in w.created then w.created[a] else []) + [e.orderId]
            && a in w'.store.accounts
            && forall b :: b in w.created && b != a ==> b in w'.created && w'.created[b] == w.created[b]
  {
  }

  /** An order just made is the last its account lists, however many there were. */
  lemma NewestIsListed(p: Params, events: seq<Event>, e: Event)
    requires May(p, After(p, events), e) && e.NewOrder?
    ensures var a := After(p, events).pending[e.req].accountId;
            && a in After(p, events + [e]).store.accounts
            && var listed := After(p, events + [e]).store.accounts[a].orderIds;
               listed != [] && listed[|listed| - 1] == e.orderId
  {
    assert (events + [e])[..|events + [e]| - 1] == events;
    MadeLast(p, After(p, events), e);
    ListIsTheLast(p, events + [e], After(p, events).pending[e.req].accountId);
  }

  /** An order id is used once, so no list names an order twice. */
  ghost predicate CreatedOnce(w: World)
  {
    forall a, i :: a in w.created && 0 <= i < |w.created[a]| ==>
      w.created[a][i] in w.guard.deadlines && w.created[a][i] !in w.created[a][..i]
  }

  lemma CreatedOnceKept(p: Params, w: World, e: Event)
    requires May(p, w, e) && Listed(w) && CreatedOnce(w)
    ensures CreatedOnce(Apply(p, w, e))
  {
    var w' := Apply(p, w, e);
    DeadlinesAfter(p, w.guard, GuardStep(w, e));
    forall a, i | a in w'.created && 0 <= i < |w'.created[a]|
      ensures w'.created[a][i] in w'.guard.deadlines && w'.created[a][i] !in w'.created[a][..i]
    {
      if a in w.created && i < |w.created[a]| {
        assert w'.created[a][..i] == w.created[a][..i];
      } else {
        assert e.NewOrder? && w'.created[a][..i] == w.created[a];
      }
    }
  }

  lemma {:induction false} AlwaysCreatedOnce(p: Params, events: seq<Event>)
    ensures CreatedOnce(After(p, events))
  {
    if events != [] {
      var w, e := After(p, events[..|events| - 1]), events[|events| - 1];
      AlwaysCreatedOnce(p, events[..|events| - 1]);
      AlwaysListed(p, events[..|events| - 1]);
      if May(p, w, e) {
        CreatedOnceKept(p, w, e);
      }
    }
  }

  // ----- finalize: status, certificates, and the claim ----------------------

  /** An order goes on being stored for a day after anybody looked at it. */
  ghost predicate StoredADay(w: World)
  {
    forall r :: r in w.guard.requests && w.guard.now - w.guard.requests[r].at <= DAY_MS ==>
      w.guard.requests[r].item in w.store.orders
  }

  lemma StoredADayKept(p: Params, w: World, e: Event)
    requires LocalInv(p, w.guard) && OrdersOk(w) && StoredADay(w) && May(p, w, e)
    ensures StoredADay(Apply(p, w, e))
  {
    var w' := Apply(p, w, e);
    forall r | r in w'.guard.requests && w'.guard.now - w'.guard.requests[r].at <= DAY_MS
      ensures w'.guard.requests[r].item in w'.store.orders
    {
      RequestBefore(p, w.guard, GuardStep(w, e), r);
      if e.NewOrder? {
        assert InDate(w.guard, w.guard.requests[r]);
      } else {
        OrdersAfter(p, w, e);
      }
    }
  }

  /** The request at work on an order, and how its status shows it. */
  predicate ShownBy(w: World, o: Id)
    requires o in w.store.orders
  {
    match w.store.orders[o].status
    case Ready => true
    case Processing =>
      o in w.holder && w.holder[o] in w.guard.requests && w.guard.requests[w.holder[o]].Working?
      && w.guard.requests[w.holder[o]].item == o
    case Valid =>
      o in w.holder && w.holder[o] in w.guard.requests && w.guard.requests[w.holder[o]].Kept?
      && w.guard.requests[w.holder[o]].item == o
  }

  ghost predicate StatusShown(w: World)
  {
    forall o :: o in w.store.orders ==> ShownBy(w, o)
  }

  /** Work on a stored order shows in its status. */
  ghost predicate OwnersShown(w: World)
  {
    forall r :: r in w.guard.requests && w.guard.requests[r].item in w.store.orders ==>
      && (w.guard.requests[r].Working? ==> w.store.orders[w.guard.requests[r].item].status.Processing?)
      && (w.guard.requests[r].Kept? ==> w.store.orders[w.guard.requests[r].item].status.Valid?)
  }

  ghost predicate Shown(w: World)
  {
    StatusShown(w) && OwnersShown(w)
  }

  /** Only a finalize's own steps touch a status or an owner. */
  predicate MovesStatus(e: Event)
  {
    e.FinalizeBegun? || e.FinalizeIssued? || e.FinalizeRefused?
  }

  lemma StatusUntouched(p: Params, w: World, e: Event)
    requires May(p, w, e) && !MovesStatus(e)
    ensures forall o :: o in StoreAfter(p, w, e).orders ==>
      if e.NewOrder? && o == e.orderId then StoreAfter(p, w, e).orders[o].status.Ready?
      else o in w.store.orders && StoreAfter(p, w, e).orders[o] == w.store.orders[o]
    ensures HolderAfter(p, w, e) == w.holder
  {
  }

  lemma OwnersUntouched(p: Params, w: World, e: Event, r: Request)
    requires May(p, w, e) && !MovesStatus(e)
    ensures var s, s' := w.guard, Do(p, w.guard, GuardStep(w, e));
            && (r in s.requests && (s.requests[r].Working? || s.requests[r].Kept?) ==>
                  r in s'.requests && s'.requests[r] == s.requests[r])
            && (r in s'.requests && (s'.requests[r].Working? || s'.requests[r].Kept?) ==>
                  r in s.requests && s'.requests[r] == s.requests[r])
  {
  }

  lemma ShownUntouched(p: Params, w: World, e: Event)
    requires May(p, w, e) && !MovesStatus(e)
    requires Shown(w) && OrdersOk(w) && LocalInv(p, w.guard)
    ensures Shown(Apply(p, w, e))
  {
    var w' := Apply(p, w, e);
    StatusUntouched(p, w, e);
    forall o | o in w'.store.orders ensures ShownBy(w', o) {
      if o in w.holder {
        OwnersUntouched(p, w, e, w.holder[o]);
      }
      assert o in w.store.orders ==> ShownBy(w, o);
    }
    forall r | r in w'.guard.requests && w'.guard.requests[r].item in w'.store.orders
      ensures w'.guard.requests[r].Working? ==> w'.store.orders[w'.guard.requests[r].item].status.Processing?
      ensures w'.guard.requests[r].Kept? ==> w'.store.orders[w'.guard.requests[r].item].status.Valid?
    {
      OwnersUntouched(p, w, e, r);
      assert r in w.guard.requests ==> InDate(w.guard, w.guard.requests[r]);
    }
  }

  /** No event but a request's own makes it look at an order at work, or go on
      with a claim past the gap. */
  lemma RunsOrderly(p: Params, w: World, e: Event)
    requires Shown(w) && May(p, w, e)
    ensures Orderly(p, w.guard, GuardStep(w, e))
  {
    if e.FinalizeLook? {
      ReadyMeans(w.store, w.store.orders[e.orderId], w.guard.now);
    }
  }

  lemma GuardKept(p: Params, w: World, e: Event)
    requires Prompt(p) && LocalInv(p, w.guard) && Shown(w)
    ensures LocalInv(p, Apply(p, w, e).guard)
  {
    if May(p, w, e) {
      RunsOrderly(p, w, e);
      LocalStep(p, w.guard, GuardStep(w, e));
    }
  }

  lemma OthersElsewhere(p: Params, g: State, req: Request, o: Item)
    requires Alone(p, g) && Has(p, g, req, o)
    ensures forall r :: r in g.requests && r != req && g.requests[r].item == o ==>
      !g.requests[r].Working? && !g.requests[r].Kept?
  {
    forall r | r in g.requests && r != req && g.requests[r].item == o
      ensures !g.requests[r].Working? && !g.requests[r].Kept?
    {
      assert !Has(p, g, r, o);
    }
  }

  /** A request that goes on with its claim finds the order "ready" still, though
      it looked before. */
  lemma GrantedFindsReady(p: Params, w: World, req: Request)
    requires LocalInv(p, w.guard) && Shown(w) && May(p, w, FinalizeBegun(req))
    ensures w.store.orders[w.guard.requests[req].item].status.Ready?
  {
    var o := w.guard.requests[req].item;
    assert Has(p, w.guard, req, o);
    OthersElsewhere(p, w.guard, req, o);
    assert ShownBy(w, o);
  }

  lemma ShownBegun(p: Params, w: World, e: Event)
    requires LocalInv(p, w.guard) && Shown(w) && May(p, w, e) && e.FinalizeBegun?
    ensures Shown(Apply(p, w, e))
  {
    var w', o := Apply(p, w, e), w.guard.requests[e.req].item;
    assert Has(p, w.guard, e.req, o);
    OthersElsewhere(p, w.guard, e.req, o);
    forall x | x in w'.store.orders ensures ShownBy(w', x) {
      assert ShownBy(w, x);
    }
  }

  /** The request at work on an order is the one its status speaks of. */
  lemma HolderIsOwner(p: Params, w: World, req: Request)
    requires LocalInv(p, w.guard) && Shown(w) && OnStored(w, req) && w.guard.requests[req].Working?
    ensures var o := w.guard.requests[req].item;
            w.store.orders[o].status.Processing? && o in w.holder && w.holder[o] == req
  {
    var o := w.guard.requests[req].item;
    assert ShownBy(w, o);
    assert Has(p, w.guard, req, o) && Has(p, w.guard, w.holder[o], o);
  }

  lemma ShownIssued(p: Params, w: World, e: Event)
    requires Prompt(p) && LocalInv(p, w.guard) && Shown(w) && May(p, w, e) && e.FinalizeIssued?
    ensures Shown(Apply(p, w, e))
  {
    var w', o := Apply(p, w, e), w.guard.requests[e.req].item;
    HolderIsOwner(p, w, e.req);
    OthersElsewhere(p, w.guard, e.req, o);
    forall x | x in w'.store.orders ensures ShownBy(w', x) {
      assert ShownBy(w, x);
    }
  }

  lemma ShownRefused(p: Params, w: World, e: Event)
    requires Prompt(p) && LocalInv(p, w.guard) && Shown(w) && May(p, w, e) && e.FinalizeRefused?
    ensures Shown(Apply(p, w, e))
  {
    var w', o := Apply(p, w, e), w.guard.requests[e.req].item;
    assert Has(p, w.guard, e.req, o);
    OthersElsewhere(p, w.guard, e.req, o);
    forall x | x in w'.store.orders ensures ShownBy(w', x) {
      assert ShownBy(w, x);
    }
  }

  lemma ShownKept(p: Params, w: World, e: Event)
    requires Prompt(p) && LocalInv(p, w.guard) && OrdersOk(w) && Shown(w) && May(p, w, e)
    ensures Shown(Apply(p, w, e))
  {
    if e.FinalizeBegun? {
      ShownBegun(p, w, e);
    } else if e.FinalizeIssued? {
      ShownIssued(p, w, e);
    } else if e.FinalizeRefused? {
      ShownRefused(p, w, e);
    } else {
      ShownUntouched(p, w, e);
    }
  }

  // ----- certificates -------------------------------------------------------

  /** A record agrees with its order and its account, and its order with it. */
  predicate Agrees(s: Store, c: Id)
    requires c in s.certificates
  {
    var r := s.certificates[c];
    && r.orderId in s.orders && s.orders[r.orderId].status.Valid?
    && s.orders[r.orderId].certificateId == Some(c)
    && r.accountId == s.orders[r.orderId].accountId && r.profile == s.orders[r.orderId].profile
    && r.accountId in s.accounts && r.entry == s.accounts[r.accountId].entry
  }

  /** A "valid" order points at a record that names it. */
  predicate Points(s: Store, o: Id)
    requires o in s.orders
  {
    s.orders[o].status.Valid? ==>
      s.orders[o].certificateId.Some? && s.orders[o].certificateId.value in s.certificates
      && s.certificates[s.orders[o].certificateId.value].orderId == o
  }

  ghost predicate CertificatesAgree(s: Store)
  {
    && (forall c :: c in s.certificates ==> Agrees(s, c))
    && (forall o :: o in s.orders ==> Points(s, o))
    && RenewalsSound(s)
  }

  /** A request finalizes an order of its own account. */
  ghost predicate FinalizersOwn(w: World)
  {
    forall r :: r in w.pending && w.pending[r].Finalizing? && r in w.guard.requests
                && w.guard.requests[r].item in w.store.orders ==>
      w.store.orders[w.guard.requests[r].item].accountId == w.pending[r].accountId
  }

  lemma FinalizingBefore(p: Params, w: World, e: Event, r: Request)
    requires May(p, w, e) && r in PendingAfter(p, w, e) && PendingAfter(p, w, e)[r].Finalizing?
    ensures if e.FinalizeLook? && e.req == r
            then PendingAfter(p, w, e)[r].accountId == w.store.orders[e.orderId].accountId
            else r in w.pending && w.pending[r] == PendingAfter(p, w, e)[r]
  {
  }

  lemma FinalizersOwnKept(p: Params, w: World, e: Event)
    requires May(p, w, e) && FinalizersOwn(w) && OrdersOk(w) && LocalInv(p, w.guard)
    ensures FinalizersOwn(Apply(p, w, e))
  {
    var w' := Apply(p, w, e);
    forall r | r in w'.pending && w'.pending[r].Finalizing? && r in w'.guard.requests
               && w'.guard.requests[r].item in w'.store.orders
      ensures w'.store.orders[w'.guard.requests[r].item].accountId == w'.pending[r].accountId
    {
      FinalizingBefore(p, w, e, r);
      RequestBefore(p, w.guard, GuardStep(w, e), r);
      if e.NewOrder? {
        assert InDate(w.guard, w.guard.requests[r]);
      } else {
        OrdersAfter(p, w, e);
      }
    }
  }

  /** What an event that issues nothing leaves alone. */
  lemma CertificatesUntouched(p: Params, w: World, e: Event)
    requires May(p, w, e) && !e.FinalizeIssued?
    ensures StoreAfter(p, w, e).certificates == w.store.certificates
    ensures StoreAfter(p, w, e).renewals == w.store.renewals
    ensures forall a :: a in w.store.accounts ==>
      a in StoreAfter(p, w, e).accounts && StoreAfter(p, w, e).accounts[a].entry == w.store.accounts[a].entry
  {
  }

  lemma ValidMoved(p: Params, w: World, e: Event)
    requires LocalInv(p, w.guard) && Shown(w) && May(p, w, e) && MovesStatus(e)
    ensures var s, s', o := w.store, StoreAfter(p, w, e), w.guard.requests[e.req].item;
            && o in s.orders && !s.orders[o].status.Valid?
            && s'.orders.Keys == s.orders.Keys
            && (forall x :: x in s.orders && x != o ==> s'.orders[x] == s.orders[x])
            && (s'.orders[o].status.Valid? ==> e.FinalizeIssued?)
  {
    OneStatusMoved(p, w, e);
    if e.FinalizeBegun? {
      GrantedFindsReady(p, w, e.req);
    } else {
      HolderIsOwner(p, w, e.req);
    }
  }

  lemma ValidUntouched(p: Params, w: World, e: Event)
    requires Prompt(p) && LocalInv(p, w.guard) && Shown(w) && OrdersOk(w)
    requires May(p, w, e)
    ensures forall o :: o in w.store.orders && w.store.orders[o].status.Valid? ==>
      o in StoreAfter(p, w, e).orders && StoreAfter(p, w, e).orders[o] == w.store.orders[o]
    ensures !e.FinalizeIssued? ==>
              forall o :: o in StoreAfter(p, w, e).orders && StoreAfter(p, w, e).orders[o].status.Valid? ==>
                o in w.store.orders && StoreAfter(p, w, e).orders[o] == w.store.orders[o]
  {
    if MovesStatus(e) {
      ValidMoved(p, w, e);
    } else {
      StatusUntouched(p, w, e);
      ValidStored(p, w, e);
    }
  }

  /** Nothing prunes a "valid" order. */
  lemma ValidStored(p: Params, w: World, e: Event)
    requires May(p, w, e) && OrdersOk(w) && !MovesStatus(e)
    ensures forall o :: o in w.store.orders && w.store.orders[o].status.Valid? ==> o in StoreAfter(p, w, e).orders
    ensures e.NewOrder? ==> e.orderId !in w.store.orders
  {
    if !e.NewOrder? {
      OrdersAfter(p, w, e);
    }
  }

  lemma AgreeUntouched(p: Params, w: World, e: Event)
    requires Prompt(p) && LocalInv(p, w.guard) && Shown(w) && OrdersOk(w)
    requires May(p, w, e) && !e.FinalizeIssued? && CertificatesAgree(w.store)
    ensures CertificatesAgree(StoreAfter(p, w, e))
  {
    var s' := StoreAfter(p, w, e);
    CertificatesUntouched(p, w, e);
    ValidUntouched(p, w, e);
    forall c | c in s'.certificates ensures Agrees(s', c) {
      assert Agrees(w.store, c);
    }
    forall o | o in s'.orders ensures Points(s', o) {
      assert o in w.store.orders ==> Points(w.store, o);
    }
  }

  /** The record the index names for the certID that is replaced, where the new
      certificate does not carry that itself. */
  predicate IsReplaced(s: Store, replacing: Option<string>, certId: string, c: Id)
  {
    && replacing.Some? && replacing.value != "" && replacing.value != certId
    && replacing.value in s.renewals && s.renewals[replacing.value] == c
  }

  /** What the index answers once the new certificate is in it. */
  lemma FoundOnceRecorded(s: Store, recordId: Id, record: Certificate, asked: string)
    requires RenewalsSound(s)
    ensures CertificateByCertId(RecordCertificate(s, recordId, record), asked) ==
            if asked == "" then None
            else if asked == record.certId then Some(recordId)
            else if asked in s.renewals then Some(s.renewals[asked]) else None
  {
  }

  lemma RecordedMarks(s: Store, recordId: Id, record: Certificate, replacing: Option<string>, c: Id)
    requires RenewalsSound(s) && recordId !in s.certificates && record.replacedBy.None?
    ensures var s' := WithCertificate(s, recordId, record, replacing);
            && (c in s'.certificates <==> c in s.certificates || c == recordId)
            && (c in s.certificates ==>
                  s'.certificates[c] ==
                  if IsReplaced(s, replacing, record.certId, c)
                  then s.certificates[c].(replacedBy := Some(recordId)) else s.certificates[c])
  {
    if replacing.Some? {
      FoundOnceRecorded(s, recordId, record, replacing.value);
    }
  }

  lemma RecordedItself(s: Store, recordId: Id, record: Certificate, replacing: Option<string>)
    requires RenewalsSound(s) && recordId !in s.certificates && record.replacedBy.None?
    ensures var s' := WithCertificate(s, recordId, record, replacing);
            && recordId in s'.certificates
            && s'.certificates[recordId] ==
               (if record.certId != "" && replacing == Some(record.certId)
                then record.(replacedBy := Some(recordId)) else record)
            && s'.renewals == if record.certId == "" then s.renewals else s.renewals[record.certId := recordId]
  {
    if replacing.Some? {
      FoundOnceRecorded(s, recordId, record, replacing.value);
    }
  }

  /** Marking a replaced record changes nothing else of any record. */
  lemma RecordsAfter(s: Store, recordId: Id, certificate: Certificate, replacing: Option<string>)
    requires recordId !in s.certificates && RenewalsSound(s)
    ensures var s' := WithCertificate(s, recordId, certificate, replacing);
            && s'.certificates.Keys == s.certificates.Keys + {recordId}
            && (forall c :: c in s.certificates ==>
                  s'.certificates[c] == s.certificates[c].(replacedBy := s'.certificates[c].replacedBy))
            && s'.certificates[recordId] == certificate.(replacedBy := s'.certificates[recordId].replacedBy)
            && RenewalsSound(s')
            && s'.orders == s.orders && s'.accounts == s.accounts
  {
    RenewalAnswers(s, recordId, certificate, "");
  }

  /** The store alone: a record for an order at work, and the order pointed at it. */
  lemma RecordedAgrees(s: Store, o: Id, account: Id, recordId: Id, certId: string)
    requires CertificatesAgree(s) && recordId !in s.certificates
    requires o in s.orders && !s.orders[o].status.Valid? && s.orders[o].accountId == account && account in s.accounts
    ensures var order := s.orders[o];
            var record := Certificate(account, o, s.accounts[account].entry, order.profile, certId, None);
            CertificatesAgree(WithOrder(WithCertificate(s, recordId, record, order.replacing), o,
                                        order.(status := Valid, certificateId := Some(recordId))))
  {
    var order := s.orders[o];
    var record := Certificate(account, o, s.accounts[account].entry, order.profile, certId, None);
    RecordsAfter(s, recordId, record, order.replacing);
    var s' := WithOrder(WithCertificate(s, recordId, record, order.replacing), o,
                        order.(status := Valid, certificateId := Some(recordId)));
    forall c | c in s'.certificates ensures Agrees(s', c) {
      if c != recordId {
        assert Agrees(s, c);
      }
    }
    forall x | x in s'.orders ensures Points(s', x) {
      assert Points(s, x);
    }
  }

  lemma AgreeIssued(p: Params, w: World, e: Event)
    requires LocalInv(p, w.guard) && Shown(w) && FinalizersOwn(w)
    requires May(p, w, e) && e.FinalizeIssued? && CertificatesAgree(w.store)
    ensures CertificatesAgree(StoreAfter(p, w, e))
  {
    HolderIsOwner(p, w, e.req);
    RecordedAgrees(w.store, w.guard.requests[e.req].item, w.pending[e.req].accountId, e.recordId, e.certId);
  }

  // ----- every run ----------------------------------------------------------

  ghost predicate RunInv(p: Params, w: World)
  {
    && LocalInv(p, w.guard) && OrdersOk(w) && StoredADay(w) && Shown(w)
    && FinalizersOwn(w) && CertificatesAgree(w.store)
  }

  lemma RunInvKept(p: Params, w: World, e: Event)
    requires Prompt(p) && RunInv(p, w)
    ensures RunInv(p, Apply(p, w, e))
  {
    if May(p, w, e) {
      GuardKept(p, w, e);
      OrdersKept(p, w, e);
      StoredADayKept(p, w, e);
      ShownKept(p, w, e);
      FinalizersOwnKept(p, w, e);
      if e.FinalizeIssued? {
        AgreeIssued(p, w, e);
      } else {
        AgreeUntouched(p, w, e);
      }
    }
  }

  lemma {:induction false} RunAlways(p: Params, events: seq<Event>)
    requires Prompt(p)
    ensures RunInv(p, After(p, events))
  {
    if events != [] {
      RunAlways(p, events[..|events| - 1]);
      RunInvKept(p, After(p, events[..|events| - 1]), events[|events| - 1]);
    }
  }

  /** In every state: each certificate record agrees with its order on account
      and profile and with its account on the entry, each "valid" order points
      at the record that names it, and so no order has two. */
  lemma RecordsAgree(p: Params, events: seq<Event>)
    requires Prompt(p)
    ensures var s := After(p, events).store;
            && CertificatesAgree(s)
            && forall c, c' | c in s.certificates && c' in s.certificates
                              && s.certificates[c].orderId == s.certificates[c'].orderId :: c == c'
  {
    RunAlways(p, events);
    var s := After(p, events).store;
    forall c | c in s.certificates ensures s.orders[s.certificates[c].orderId].certificateId == Some(c) {
      assert Agrees(s, c);
    }
  }

  /** An order is still stored a day after anybody looked at it: a finalize can only
      lose its order by taking longer. */
  lemma InTimeFindsOrder(p: Params, events: seq<Event>, req: Request)
    requires Prompt(p)
    requires var w := After(p, events);
             FinalizingIn(w, req) && w.guard.now - w.guard.requests[req].at <= DAY_MS
    ensures OnStored(After(p, events), req)
  {
    RunAlways(p, events);
  }

  // ----- what never changes back --------------------------------------------

  /** ready -> processing -> ready or valid, and nothing else. */
  predicate StatusMove(a: OrderStatus, b: OrderStatus)
  {
    a == b || (a.Ready? && b.Processing?) || a.Processing?
  }

  /** What a finalize's own step does to the orders. */
  lemma OneStatusMoved(p: Params, w: World, e: Event)
    requires May(p, w, e) && MovesStatus(e)
    ensures var o, s := w.guard.requests[e.req].item, w.store;
            && StoreAfter(p, w, e).orders.Keys == s.orders.Keys
            && (forall x :: x in s.orders && x != o ==> StoreAfter(p, w, e).orders[x] == s.orders[x])
            && StoreAfter(p, w, e).orders[o].status ==
               if e.FinalizeBegun? then Processing else if e.FinalizeIssued? then Valid else Ready
  {
  }

  lemma FinalizeMoves(p: Params, w: World, e: Event, o: Id)
    requires LocalInv(p, w.guard) && Shown(w) && o in w.store.orders && May(p, w, e) && MovesStatus(e)
    ensures o in StoreAfter(p, w, e).orders
    ensures StatusMove(w.store.orders[o].status, StoreAfter(p, w, e).orders[o].status)
  {
    OneStatusMoved(p, w, e);
    if e.FinalizeBegun? {
      GrantedFindsReady(p, w, e.req);
    } else {
      HolderIsOwner(p, w, e.req);
    }
  }

  lemma StatusMoves(p: Params, w: World, e: Event, o: Id)
    requires Prompt(p) && RunInv(p, w) && o in w.store.orders && o in Apply(p, w, e).store.orders
    ensures StatusMove(w.store.orders[o].status, Apply(p, w, e).store.orders[o].status)
  {
    if May(p, w, e) {
      if MovesStatus(e) {
        FinalizeMoves(p, w, e, o);
      } else {
        StatusUntouched(p, w, e);
        assert e.NewOrder? && o == e.orderId ==> o in w.guard.deadlines;
      }
    }
  }

  /** What a later state has kept of an earlier one. */
  ghost predicate Later(w: World, w': World)
  {
    && AccountsStay(w, w')
    && (forall c :: c in w.store.certificates ==>
          && c in w'.store.certificates
          && w'.store.certificates[c] == w.store.certificates[c].(replacedBy := w'.store.certificates[c].replacedBy)
          && (w.store.certificates[c].replacedBy.Some? ==> w'.store.certificates[c].replacedBy.Some?))
    && (forall o :: o in w.store.orders && w.store.orders[o].status.Valid? ==>
          o in w'.store.orders && w'.store.orders[o] == w.store.orders[o])
  }

  lemma AccountsLater(p: Params, w: World, e: Event)
    requires May(p, w, e)
    ensures forall a :: a in w.store.accounts ==>
      && a in StoreAfter(p, w, e).accounts && StoreAfter(p, w, e).accounts[a].entry == w.store.accounts[a].entry
      && (w.store.accounts[a].status.DeactivatedAccount? ==> StoreAfter(p, w, e).accounts[a].status.DeactivatedAccount?)
  {
  }

  /** What becomes of an account. */
  ghost predicate AccountsStay(w: World, w': World)
  {
    forall a :: a in w.store.accounts ==>
      && a in w'.store.accounts && w'.store.accounts[a].entry == w.store.accounts[a].entry
      && (w.store.accounts[a].status.DeactivatedAccount? ==> w'.store.accounts[a].status.DeactivatedAccount?)
  }

  /** Whatever follows, under no bound at all: an account stays, its entry never
      changes, and "deactivated" is for good. */
  lemma {:induction false} AccountsForGood(p: Params, events: seq<Event>, more: seq<Event>)
    ensures AccountsStay(After(p, events), After(p, events + more))
  {
    if more == [] {
      assert events + more == events;
    } else {
      var last := |more| - 1;
      AccountsForGood(p, events, more[..last]);
      Extend(p, events, more);
      if May(p, After(p, events + more[..last]), more[last]) {
        AccountsLater(p, After(p, events + more[..last]), more[last]);
      }
    }
  }

  lemma RecordsLater(p: Params, w: World, e: Event, c: Id)
    requires May(p, w, e) && e.FinalizeIssued? && RenewalsSound(w.store) && c in w.store.certificates
    ensures var was, s' := w.store.certificates[c], StoreAfter(p, w, e);
            && c in s'.certificates && s'.certificates[c] == was.(replacedBy := s'.certificates[c].replacedBy)
            && (was.replacedBy.Some? ==> s'.certificates[c].replacedBy.Some?)
  {
    var o, account := w.guard.requests[e.req].item, w.pending[e.req].accountId;
    var s := w.store;
    RecordedMarks(s, e.recordId,
                  Certificate(account, o, s.accounts[account].entry, s.orders[o].profile, e.certId, None),
                  s.orders[o].replacing, c);
  }

  lemma StepLater(p: Params, w: World, e: Event)
    requires Prompt(p) && RunInv(p, w)
    ensures Later(w, Apply(p, w, e))
  {
    if May(p, w, e) {
      AccountsLater(p, w, e);
      ValidUntouched(p, w, e);
      if e.FinalizeIssued? {
        forall c | c in w.store.certificates { RecordsLater(p, w, e, c); }
      } else {
        CertificatesUntouched(p, w, e);
      }
    }
  }

  lemma LaterTrans(w: World, w': World, w'': World)
    requires Later(w, w') && Later(w', w'')
    ensures Later(w, w'')
  {
  }

  lemma Extend(p: Params, events: seq<Event>, more: seq<Event>)
    requires more != []
    ensures After(p, events + more) ==
            Apply(p, After(p, events + more[..|more| - 1]), more[|more| - 1])
  {
    assert (events + more)[..|events + more| - 1] == events + more[..|more| - 1];
  }

  /** Whatever follows: an account's entry never changes and "deactivated"
      stays, a certificate's record stays but for who replaced it, and a "valid"
      order stays as it is. */
  lemma {:induction false} AlwaysLater(p: Params, events: seq<Event>, more: seq<Event>)
    requires Prompt(p)
    ensures Later(After(p, events), After(p, events + more))
  {
    if more == [] {
      assert events + more == events;
    } else {
      var last := |more| - 1;
      AlwaysLater(p, events, more[..last]);
      RunAlways(p, events + more[..last]);
      StepLater(p, After(p, events + more[..last]), more[last]);
      Extend(p, events, more);
      LaterTrans(After(p, events), After(p, events + more[..last]), After(p, events + more));
    }
  }

  // ----- derived status over time -------------------------------------------

  /** What a derived "ready" means. */
  lemma ReadyMeans(s: Store, order: Order, nowMs: int)
    ensures OrderStatusOf(s, order, nowMs).OrderReady? <==>
            && order.status.Ready? && nowMs < order.expires
            && forall a :: a in order.authzIds ==>
                 a in s.authzs && s.authzs[a].status.ValidAuthz? && nowMs < s.authzs[a].expires
  {
    if exists a :: a in order.authzIds && AuthzStatusOf(s, a, nowMs) != ShownValid {
    } else {
      forall a | a in order.authzIds
        ensures a in s.authzs && s.authzs[a].status.ValidAuthz? && nowMs < s.authzs[a].expires
      {
        assert AuthzStatusOf(s, a, nowMs) == ShownValid;
      }
    }
  }

  /** How an authorization is shown: gone, given up, past its time, or valid. */
  lemma AuthzShownAs(s: Store, a: Id, nowMs: int)
    ensures AuthzStatusOf(s, a, nowMs).ShownInvalid? <==> a !in s.authzs
    ensures AuthzStatusOf(s, a, nowMs).ShownDeactivated? <==> a in s.authzs && s.authzs[a].status.DeactivatedAuthz?
    ensures AuthzStatusOf(s, a, nowMs).ShownExpired? <==>
            a in s.authzs && s.authzs[a].status.ValidAuthz? && s.authzs[a].expires <= nowMs
    ensures AuthzStatusOf(s, a, nowMs).ShownValid? <==>
            a in s.authzs && s.authzs[a].status.ValidAuthz? && nowMs < s.authzs[a].expires
  {
  }

  lemma ValidIsRecorded(p: Params, w: World, o: Id)
    requires RunInv(p, w) && o in w.store.orders
    ensures w.store.orders[o].status.Valid? <==>
            exists c :: c in w.store.certificates && w.store.certificates[c].orderId == o
  {
    if w.store.orders[o].status.Valid? {
      assert Points(w.store, o);
    }
    if c :| c in w.store.certificates && w.store.certificates[c].orderId == o {
      assert Agrees(w.store, c);
    }
  }

  lemma ProcessingIsWorkedOn(p: Params, w: World, o: Id)
    requires RunInv(p, w) && o in w.store.orders
    ensures w.store.orders[o].status.Processing? <==>
            exists r :: r in w.guard.requests && w.guard.requests[r] == Working(o, w.guard.requests[r].at)
  {
    if w.store.orders[o].status.Processing? {
      assert ShownBy(w, o);
      assert w.guard.requests[w.holder[o]] == Working(o, w.guard.requests[w.holder[o]].at);
    }
  }

  /** What a client is shown of an order, in every state of every run: "valid" exactly
      if a certificate record names it, and then the order names that record;
      "processing" exactly if a request is at work on it; otherwise "ready" or
      "invalid" by its own time and its authorizations. */
  lemma ShownMeans(p: Params, events: seq<Event>, o: Id)
    requires Prompt(p) && o in After(p, events).store.orders
    ensures var w := After(p, events);
            var s, order := w.store, w.store.orders[o];
            var shown := OrderStatusOf(s, order, w.guard.now);
            && (shown.OrderValid? <==> exists c :: c in s.certificates && s.certificates[c].orderId == o)
            && (shown.OrderValid? ==>
                  forall c :: c in s.certificates && s.certificates[c].orderId == o ==> order.certificateId == Some(c))
            && (shown.OrderProcessing? <==>
                  exists r :: r in w.guard.requests && w.guard.requests[r] == Working(o, w.guard.requests[r].at))
            && (shown.OrderReady? <==>
                  && !shown.OrderValid? && !shown.OrderProcessing? && w.guard.now < order.expires
                  && forall a :: a in order.authzIds ==>
                       a in s.authzs && s.authzs[a].status.ValidAuthz? && w.guard.now < s.authzs[a].expires)
  {
    RunAlways(p, events);
    var w := After(p, events);
    ValidIsRecorded(p, w, o);
    ProcessingIsWorkedOn(p, w, o);
    forall c | c in w.store.certificates && w.store.certificates[c].orderId == o
      ensures w.store.orders[o].certificateId == Some(c)
    {
      assert Agrees(w.store, c);
    }
    ReadyMeans(w.store, w.store.orders[o], w.guard.now);
  }

  /** Past its own or an authorization's end. */
  ghost predicate Broken(w: World, o: Id)
    requires o in w.store.orders
  {
    || IsExpired(w.store.orders[o].expires, w.guard.now)
    || exists a :: a in w.store.orders[o].authzIds && AuthzStatusOf(w.store, a, w.guard.now) != ShownValid
  }

  lemma AuthzStaysBroken(p: Params, w: World, e: Event, a: Id)
    requires May(p, w, e) && a in w.store.authzs && AuthzStatusOf(w.store, a, w.guard.now) != ShownValid
    ensures AuthzStatusOf(StoreAfter(p, w, e), a, Do(p, w.guard, GuardStep(w, e)).now) != ShownValid
  {
    DeadlinesAfter(p, w.guard, GuardStep(w, e));
  }

  lemma BrokenStays(p: Params, w: World, e: Event, o: Id)
    requires OrdersOk(w) && May(p, w, e)
    requires o in w.store.orders && Broken(w, o) && o in Apply(p, w, e).store.orders
    ensures Broken(Apply(p, w, e), o)
  {
    var w' := Apply(p, w, e);
    DeadlinesAfter(p, w.guard, GuardStep(w, e));
    if !e.NewOrder? {
      OrdersAfter(p, w, e);
    }
    assert w'.store.orders[o].authzIds == w.store.orders[o].authzIds;
    if !IsExpired(w.store.orders[o].expires, w.guard.now) {
      var a :| a in w.store.orders[o].authzIds && AuthzStatusOf(w.store, a, w.guard.now) != ShownValid;
      AuthzStaysBroken(p, w, e, a);
    }
  }

  lemma {:induction false} BrokenForGood(p: Params, events: seq<Event>, more: seq<Event>, o: Id)
    requires o in After(p, events).store.orders && Broken(After(p, events), o)
    requires o in After(p, events + more).store.orders
    ensures Broken(After(p, events + more), o)
  {
    if more == [] {
      assert events + more == events;
    } else {
      var last := |more| - 1;
      var before := After(p, events + more[..last]);
      Extend(p, events, more);
      OrdersAlwaysOk(p, events + more[..last]);
      OrderWasThere(p, events, more[..last], more[last], o);
      BrokenForGood(p, events, more[..last], o);
      if May(p, before, more[last]) {
        BrokenStays(p, before, more[last], o);
      }
    }
  }

  /** An order that once was no longer ready never is again: at every later
      moment it is stored "ready", its status is derived "invalid". */
  lemma InvalidForGood(p: Params, events: seq<Event>, more: seq<Event>, o: Id)
    requires o in After(p, events).store.orders
    requires var w := After(p, events); OrderStatusOf(w.store, w.store.orders[o], w.guard.now).OrderInvalid?
    requires o in After(p, events + more).store.orders
    requires After(p, events + more).store.orders[o].status.Ready?
    ensures var w := After(p, events + more);
            OrderStatusOf(w.store, w.store.orders[o], w.guard.now).OrderInvalid?
  {
    BrokenForGood(p, events, more, o);
  }

  /** An order id is used once, so one that is stored before and after was
      stored in between. */
  lemma OrderWasThere(p: Params, events: seq<Event>, between: seq<Event>, e: Event, o: Id)
    requires o in After(p, events).store.orders
    requires o in Apply(p, After(p, events + between), e).store.orders
    ensures o in After(p, events + between).store.orders
  {
    DeadlineStays(p, events, between, o);
    var w := After(p, events + between);
    if May(p, w, e) && !e.NewOrder? {
      OrdersAfter(p, w, e);
    }
  }

  lemma {:induction false} DeadlineStays(p: Params, events: seq<Event>, more: seq<Event>, o: Id)
    requires o in After(p, events).store.orders
    ensures o in After(p, events + more).guard.deadlines
  {
    if more == [] {
      assert events + more == events;
      OrdersAlwaysOk(p, events);
    } else {
      var last := |more| - 1;
      DeadlineStays(p, events, more[..last], o);
      Extend(p, events, more);
      var w := After(p, events + more[..last]);
      DeadlinesAfter(p, w.guard, GuardStep(w, more[last]));
    }
  }
}
