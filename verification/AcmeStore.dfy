/** What ACME mints in one realm: accounts and the index of their keys, orders
    and their authorizations, certificates and the renewal index. Each row is a
    value; the store's operations are functions on all of it, and the class
    carries them out on its maps. Times are milliseconds. */
module AcmeStore {
  import opened Wrappers
  import CsrNames

  type Entry = CsrNames.Entry
  type Id = string

  const DAY_MS := 86400000
  const MAX_ORDERS_PER_ACCOUNT := 1000

  datatype AccountStatus = ActiveAccount | DeactivatedAccount

  datatype Account = Account(
    thumbprint: string, status: AccountStatus, contact: seq<string>, entry: Entry, orderIds: seq<Id>)

  datatype AuthzStatus = ValidAuthz | DeactivatedAuthz

  datatype Authz = Authz(accountId: Id, status: AuthzStatus, expires: int)

  datatype OrderStatus = Ready | Processing | Valid

  datatype Order = Order(
    accountId: Id, status: OrderStatus, profile: string, authzIds: seq<Id>, expires: int,
    replacing: Option<string>, certificateId: Option<Id>)

  datatype Certificate = Certificate(
    accountId: Id, orderId: Id, entry: Entry, profile: string, certId: string, replacedBy: Option<Id>)

  datatype Store = Store(
    accounts: map<Id, Account>,
    accountKeys: map<string, Id>,
    orders: map<Id, Order>,
    authzs: map<Id, Authz>,
    certificates: map<Id, Certificate>,
    renewals: map<string, Id>)

  const EMPTY_STORE := Store(map[], map[], map[], map[], map[], map[])

  // ----- accounts -----------------------------------------------------------

  function CreateAccount(s: Store, id: Id, thumbprint: string, contact: seq<string>, entry: Entry): Store
  {
    s.(accounts := s.accounts[id := Account(thumbprint, ActiveAccount, contact, entry, [])],
       accountKeys := s.accountKeys[thumbprint := id])
  }

  function AccountByThumbprint(s: Store, thumbprint: string): Option<Id>
  {
    if thumbprint != "" && thumbprint in s.accountKeys && s.accountKeys[thumbprint] in s.accounts
    then Some(s.accountKeys[thumbprint]) else None
  }

  /** Section 7.3.5 of RFC 8555: the old thumbprint goes only if it is this account's. */
  function RekeyAccount(s: Store, id: Id, thumbprint: string): Store
    requires id in s.accounts
  {
    var was := s.accounts[id].thumbprint;
    var freed := if was in s.accountKeys && s.accountKeys[was] == id then s.accountKeys - {was} else s.accountKeys;
    s.(accounts := s.accounts[id := s.accounts[id].(thumbprint := thumbprint)],
       accountKeys := freed[thumbprint := id])
  }

  /** The index names only accounts that exist and have the key. */
  ghost predicate IndexSound(s: Store)
  {
    forall t :: t in s.accountKeys ==> s.accountKeys[t] in s.accounts && s.accounts[s.accountKeys[t]].thumbprint == t
  }

  /** Every account is found by its key. */
  ghost predicate IndexComplete(s: Store)
  {
    forall id :: id in s.accounts ==>
      s.accounts[id].thumbprint in s.accountKeys && s.accountKeys[s.accounts[id].thumbprint] == id
  }

  lemma CreateKeepsIndex(s: Store, id: Id, thumbprint: string, contact: seq<string>, entry: Entry)
    requires IndexSound(s) && id !in s.accounts
    ensures IndexSound(CreateAccount(s, id, thumbprint, contact, entry))
    ensures IndexComplete(CreateAccount(s, id, thumbprint, contact, entry)) <==>
            IndexComplete(s) && thumbprint !in s.accountKeys
  {
    var s' := CreateAccount(s, id, thumbprint, contact, entry);
    assert thumbprint in s.accountKeys ==> s'.accounts[s.accountKeys[thumbprint]].thumbprint == thumbprint;
    if IndexComplete(s') {
      forall other | other in s.accounts
        ensures s.accounts[other].thumbprint in s.accountKeys && s.accountKeys[s.accounts[other].thumbprint] == other
      {
        assert s'.accounts[other] == s.accounts[other];
      }
    }
  }

  /** A rekey keeps the index sound, gives the account the new key and takes the old
      one from it alone. Where every account was found by its key and the new key was
      nobody's, it frees exactly the old one. */
  lemma RekeyKeepsIndex(s: Store, id: Id, thumbprint: string)
    requires IndexSound(s) && id in s.accounts
    ensures IndexSound(RekeyAccount(s, id, thumbprint))
    ensures AccountByThumbprint(RekeyAccount(s, id, thumbprint), thumbprint) ==
            if thumbprint == "" then None else Some(id)
    ensures forall other, t :: other != id && t != thumbprint ==>
              (AccountByThumbprint(RekeyAccount(s, id, thumbprint), t) == Some(other) <==>
               AccountByThumbprint(s, t) == Some(other))
    ensures s.accounts[id].thumbprint != thumbprint ==>
              AccountByThumbprint(RekeyAccount(s, id, thumbprint), s.accounts[id].thumbprint) != Some(id)
    ensures IndexComplete(s) && thumbprint !in s.accountKeys ==>
            && IndexComplete(RekeyAccount(s, id, thumbprint))
            && RekeyAccount(s, id, thumbprint).accountKeys.Keys ==
               s.accountKeys.Keys - {s.accounts[id].thumbprint} + {thumbprint}
  {
  }

  // ----- orders and authorizations -----------------------------------------

  function LastOf<T>(items: seq<T>, n: nat): seq<T>
  {
    if |items| <= n then items else items[|items| - n..]
  }

  /** The last of them are kept, in order. */
  lemma LastOfIs<T>(items: seq<T>, n: nat)
    ensures |LastOf(items, n)| == if |items| < n then |items| else n
    ensures LastOf(items, n) == items[|items| - |LastOf(items, n)|..]
  {
  }

  /** Never became valid, and expired more than a day ago. */
  predicate Dead(order: Order, nowMs: int)
  {
    !order.status.Valid? && order.expires < nowMs - DAY_MS
  }

  predicate OwnedByOne(orders: map<Id, Order>, authzId: Id, among: set<Id>)
  {
    exists o :: o in among && o in orders && authzId in orders[o].authzIds
  }

  /** The store without some orders and without their authorizations. */
  function Without(s: Store, gone: set<Id>): Store
  {
    s.(orders := map o | o in s.orders && o !in gone :: s.orders[o],
       authzs := map a | a in s.authzs && !OwnedByOne(s.orders, a, gone) :: s.authzs[a])
  }

  lemma WithoutNone(s: Store)
    ensures Without(s, {}) == s
  {
  }

  lemma WithoutOneMore(s: Store, gone: set<Id>, o: Id)
    requires o in s.orders && o !in gone
    ensures var before := Without(s, gone);
            Without(s, gone + {o}) ==
            before.(orders := before.orders - {o}, authzs := before.authzs - set a | a in s.orders[o].authzIds)
  {
    forall a ensures OwnedByOne(s.orders, a, gone + {o}) <==>
                     OwnedByOne(s.orders, a, gone) || a in s.orders[o].authzIds {}
  }

  function PruneOrders(s: Store, nowMs: int): Store
  {
    Without(s, set o | o in s.orders && Dead(s.orders[o], nowMs))
  }

  function CreateOrder(s: Store, accountId: Id, orderId: Id, order: Order, nowMs: int): Store
    requires accountId in s.accounts
  {
    var pruned := PruneOrders(s, nowMs);
    var account := s.accounts[accountId];
    pruned.(orders := pruned.orders[orderId := order],
            accounts := s.accounts[accountId := account.(orderIds :=
              LastOf(account.orderIds + [orderId], MAX_ORDERS_PER_ACCOUNT))])
  }

  function CreateAuthzs(s: Store, ids: seq<Id>, authz: Authz): Store
  {
    s.(authzs := s.authzs + map id | id in ids :: authz)
  }

  /** Every authorization of a stored order exists, and no two orders, nor one
      order twice, share one. */
  ghost predicate AuthzsOwned(s: Store)
  {
    && (forall o, a :: o in s.orders && a in s.orders[o].authzIds ==> a in s.authzs)
    && (forall o :: o in s.orders ==> EachOnce(s.orders[o].authzIds))
    && (forall o, o' :: o in s.orders && o' in s.orders && o != o' ==>
          Apart(s.orders[o].authzIds, s.orders[o'].authzIds))
  }

  predicate EachOnce(ids: seq<Id>)
  {
    forall i, j :: 0 <= i < j < |ids| ==> ids[i] != ids[j]
  }

  ghost predicate Apart(a: seq<Id>, b: seq<Id>)
  {
    forall x :: x in a ==> x !in b
  }

  /** Pruning removes exactly the dead orders and exactly their authorizations:
      of the orders that stay, none loses an authorization. */
  lemma PruneExact(s: Store, nowMs: int)
    requires AuthzsOwned(s)
    ensures var s' := PruneOrders(s, nowMs);
            && AuthzsOwned(s')
            && (forall o :: o in s.orders ==>
                  (o in s'.orders <==> s.orders[o].status.Valid? || s.orders[o].expires + 86400000 >= nowMs))
            && (forall o, a :: o in s'.orders && a in s.orders[o].authzIds ==>
                  a in s'.authzs && s'.authzs[a] == s.authzs[a])
            && (forall o, a :: o in s.orders && o !in s'.orders && a in s.orders[o].authzIds ==> a !in s'.authzs)
            && (forall a :: a in s.authzs && (forall o :: o in s.orders ==> a !in s.orders[o].authzIds) ==>
                  a in s'.authzs)
  {
    var s' := PruneOrders(s, nowMs);
    forall o, a | o in s'.orders && a in s.orders[o].authzIds ensures a in s'.authzs {
      forall d | d in s.orders && Dead(s.orders[d], nowMs) ensures a !in s.orders[d].authzIds {
        assert Apart(s.orders[o].authzIds, s.orders[d].authzIds);
      }
    }
  }

  lemma AuthzsAdded(s: Store, ids: seq<Id>, authz: Authz)
    requires AuthzsOwned(s)
    ensures AuthzsOwned(CreateAuthzs(s, ids, authz))
  {
  }

  lemma OrderAdded(s: Store, orderId: Id, order: Order)
    requires AuthzsOwned(s) && orderId !in s.orders
    requires forall a :: a in order.authzIds ==> a in s.authzs
    requires EachOnce(order.authzIds) && forall o :: o in s.orders ==> Apart(s.orders[o].authzIds, order.authzIds)
    ensures AuthzsOwned(s.(orders := s.orders[orderId := order]))
  {
  }

  /** new-order: an authorization for each identifier, then the order. */
  lemma NewOrderOwned(s: Store, accountId: Id, orderId: Id, order: Order, authz: Authz, nowMs: int)
    requires AuthzsOwned(s) && accountId in s.accounts && orderId !in s.orders
    requires EachOnce(order.authzIds) && forall a :: a in order.authzIds ==> a !in s.authzs
    ensures AuthzsOwned(CreateOrder(CreateAuthzs(s, order.authzIds, authz), accountId, orderId, order, nowMs))
  {
    var s1 := CreateAuthzs(s, order.authzIds, authz);
    AuthzsAdded(s, order.authzIds, authz);
    PruneExact(s1, nowMs);
    var s2 := PruneOrders(s1, nowMs);
    forall o | o in s.orders ensures Apart(s.orders[o].authzIds, order.authzIds) {}
    OrderAdded(s2, orderId, order);
  }

  /** `saveOrder`: it is put under its id whether or not it is stored. */
  function WithOrder(s: Store, id: Id, order: Order): Store
  {
    s.(orders := s.orders[id := order])
  }

  lemma SavedInPlace(s: Store, o: Id, order: Order)
    requires AuthzsOwned(s) && o in s.orders && order.authzIds == s.orders[o].authzIds
    ensures AuthzsOwned(WithOrder(s, o, order))
  {
  }

  lemma SavedWithout(s: Store, o: Id, order: Order, nowMs: int)
    requires AuthzsOwned(s) && o in s.orders && order.authzIds == s.orders[o].authzIds
    requires Dead(s.orders[o], nowMs)
    ensures AuthzsOwned(WithOrder(PruneOrders(s, nowMs), o, order)) <==> order.authzIds == []
  {
    PruneExact(s, nowMs);
    var pruned := PruneOrders(s, nowMs);
    if order.authzIds == [] {
      OrderAdded(pruned, o, order);
    } else {
      var a := order.authzIds[0];
      assert a in s.orders[o].authzIds && a !in pruned.authzs;
      assert WithOrder(pruned, o, order).orders[o].authzIds[0] == a;
    }
  }

  /** A finalize that outlasts its order saves it back after it was pruned. Exactly
      then, if it had an authorization, one of a stored order's is not there. */
  lemma SavedBack(s: Store, o: Id, order: Order, nowMs: int)
    requires AuthzsOwned(s) && o in s.orders && order.authzIds == s.orders[o].authzIds
    ensures AuthzsOwned(WithOrder(PruneOrders(s, nowMs), o, order)) <==>
            !Dead(s.orders[o], nowMs) || order.authzIds == []
  {
    if Dead(s.orders[o], nowMs) {
      SavedWithout(s, o, order, nowMs);
    } else {
      PruneExact(s, nowMs);
      SavedInPlace(PruneOrders(s, nowMs), o, order);
    }
  }

  // ----- certificates -------------------------------------------------------

  function RecordCertificate(s: Store, id: Id, certificate: Certificate): Store
  {
    s.(certificates := s.certificates[id := certificate],
       renewals := if certificate.certId != "" then s.renewals[certificate.certId := id] else s.renewals)
  }

  function CertificateByCertId(s: Store, certId: string): Option<Id>
  {
    if certId != "" && certId in s.renewals && s.renewals[certId] in s.certificates
    then Some(s.renewals[certId]) else None
  }

  ghost predicate RenewalsSound(s: Store)
  {
    forall c :: c in s.renewals ==> s.renewals[c] in s.certificates && s.certificates[s.renewals[c]].certId == c
  }

  /** The renewal index answers only with a record that carries the certID. */
  lemma RenewalAnswers(s: Store, id: Id, certificate: Certificate, asked: string)
    requires RenewalsSound(s) && id !in s.certificates
    ensures var s' := RecordCertificate(s, id, certificate);
            && RenewalsSound(s')
            && (CertificateByCertId(s', asked).Some? ==>
                  s'.certificates[CertificateByCertId(s', asked).value].certId == asked)
            && (certificate.certId != "" ==> CertificateByCertId(s', certificate.certId) == Some(id))
  {
  }

  // ----- the store itself ---------------------------------------------------

  class Realm {
    var accounts: map<Id, Account>
    var accountKeys: map<string, Id>
    var orders: map<Id, Order>
    var authzs: map<Id, Authz>
    var certificates: map<Id, Certificate>
    var renewals: map<string, Id>

    constructor ()
      ensures State() == EMPTY_STORE
    {
      accounts, accountKeys, orders, authzs, certificates, renewals := map[], map[], map[], map[], map[], map[];
    }

    ghost function State(): Store
      reads this
    {
      Store(accounts, accountKeys, orders, authzs, certificates, renewals)
    }

    method NewAccount(id: Id, thumbprint: string, contact: seq<string>, entry: Entry)
      modifies this
      ensures State() == CreateAccount(old(State()), id, thumbprint, contact, entry)
    {
      accounts := accounts[id := Account(thumbprint, ActiveAccount, contact, entry, [])];
      accountKeys := accountKeys[thumbprint := id];
    }

    method FindByThumbprint(thumbprint: string) returns (id: Option<Id>)
      ensures id == AccountByThumbprint(State(), thumbprint)
    {
      id := None;
      if thumbprint != "" && thumbprint in accountKeys {
        var found := accountKeys[thumbprint];
        if found in accounts {
          id := Some(found);
        }
      }
    }

    method Rekey(id: Id, thumbprint: string)
      requires id in accounts
      modifies this
      ensures State() == RekeyAccount(old(State()), id, thumbprint)
    {
      var account := accounts[id];
      if account.thumbprint in accountKeys && accountKeys[account.thumbprint] == id {
        accountKeys := accountKeys - {account.thumbprint};
      }
      accounts := accounts[id := account.(thumbprint := thumbprint)];
      accountKeys := accountKeys[thumbprint := id];
    }

    method FindDead(nowMs: int) returns (dead: set<Id>)
      ensures dead == set o | o in orders && Dead(orders[o], nowMs)
    {
      dead := {};
      var unseen := orders.Keys;
      while unseen != {}
        invariant unseen <= orders.Keys
        invariant forall o :: o in dead <==> o in orders && o !in unseen && Dead(orders[o], nowMs)
        decreases |unseen|
      {
        var o :| o in unseen;
        if Dead(orders[o], nowMs) {
          dead := dead + {o};
        }
        unseen := unseen - {o};
      }
    }

    method Drop(orderId: Id)
      requires orderId in orders
      modifies this
      ensures State() == old(State()).(orders := old(orders) - {orderId},
                                       authzs := old(authzs) - set a | a in old(orders)[orderId].authzIds)
    {
      authzs := authzs - set a | a in orders[orderId].authzIds;
      orders := orders - {orderId};
    }

    method Prune(nowMs: int)
      modifies this
      ensures State() == PruneOrders(old(State()), nowMs)
    {
      var dead := FindDead(nowMs);
      ghost var all, was := dead, State();
      WithoutNone(was);
      while dead != {}
        invariant dead <= all <= was.orders.Keys
        invariant State() == Without(was, all - dead)
        decreases |dead|
      {
        var o :| o in dead;
        WithoutOneMore(was, all - dead, o);
        assert all - (dead - {o}) == all - dead + {o};
        Drop(o);
        dead := dead - {o};
      }
      assert all - {} == all;
    }

    method NewAuthzs(ids: seq<Id>, authz: Authz)
      modifies this
      ensures State() == CreateAuthzs(old(State()), ids, authz)
    {
      for i := 0 to |ids|
        invariant authzs == old(authzs) + map id | id in ids[..i] :: authz
        invariant State() == old(State()).(authzs := authzs)
      {
        assert ids[..i + 1] == ids[..i] + [ids[i]];
        authzs := authzs[ids[i] := authz];
      }
      assert ids[..|ids|] == ids;
    }

    method NewOrder(accountId: Id, orderId: Id, order: Order, nowMs: int)
      requires accountId in accounts
      modifies this
      ensures State() == CreateOrder(old(State()), accountId, orderId, order, nowMs)
      ensures var before, listed := old(accounts)[accountId].orderIds + [orderId], accounts[accountId].orderIds;
              listed == if |before| <= 1000 then before else before[|before| - 1000..]
    {
      Prune(nowMs);
      orders := orders[orderId := order];
      var ids := accounts[accountId].orderIds + [orderId];
      if |ids| > MAX_ORDERS_PER_ACCOUNT {
        ids := ids[|ids| - MAX_ORDERS_PER_ACCOUNT..];
      }
      accounts := accounts[accountId := accounts[accountId].(orderIds := ids)];
    }

    /** What new-order does to the store: an authorization for each identifier,
        then the order. */
    method PlaceOrder(accountId: Id, orderId: Id, order: Order, authz: Authz, nowMs: int)
      requires accountId in accounts
      modifies this
      ensures State() ==
              CreateOrder(CreateAuthzs(old(State()), order.authzIds, authz), accountId, orderId, order, nowMs)
    {
      NewAuthzs(order.authzIds, authz);
      NewOrder(accountId, orderId, order, nowMs);
    }

    method Record(id: Id, certificate: Certificate)
      modifies this
      ensures State() == RecordCertificate(old(State()), id, certificate)
    {
      certificates := certificates[id := certificate];
      if certificate.certId != "" {
        renewals := renewals[certificate.certId := id];
      }
    }

    method FindByCertId(certId: string) returns (id: Option<Id>)
      ensures id == CertificateByCertId(State(), certId)
    {
      id := None;
      if certId != "" && certId in renewals && renewals[certId] in certificates {
        id := Some(renewals[certId]);
      }
    }
  }
}
