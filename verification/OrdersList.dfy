/** An account's orders, a hundred a page (section 7.1.2.1 of RFC 8555). */
module OrdersList {
  import opened Basics
  import opened OnceGuard
  import opened AcmeStore
  import opened AcmeRun
  import opened AcmeSafety

  const ORDERS_PER_PAGE := 100

  predicate Shows(s: Store, id: Id, nowMs: int)
  {
    id in s.orders && !OrderStatusOf(s, s.orders[id], nowMs).OrderInvalid?
  }

  function Showing(s: Store, ids: seq<Id>, nowMs: int): seq<Id>
  {
    if ids == [] then []
    else
      Showing(s, ids[..|ids| - 1], nowMs)
      + (if Shows(s, ids[|ids| - 1], nowMs) then [ids[|ids| - 1]] else [])
  }

  function Page(ids: seq<Id>, page: nat): seq<Id>
    requires page > 0
  {
    Slice(ids, (page - 1) * ORDERS_PER_PAGE, page * ORDERS_PER_PAGE)
  }

  predicate HasNext(ids: seq<Id>, page: nat)
  {
    page * ORDERS_PER_PAGE < |ids|
  }

  method ListOrders(s: Store, accountId: Id, nowMs: int, page: nat) returns (shown: seq<Id>, next: bool)
    requires accountId in s.accounts && page > 0
    ensures var ids := Showing(s, s.accounts[accountId].orderIds, nowMs);
            shown == Page(ids, page) && next == HasNext(ids, page)
  {
    var all, ids := s.accounts[accountId].orderIds, [];
    assert all[..0] == [];
    for i := 0 to |all|
      invariant ids == Showing(s, all[..i], nowMs)
    {
      assert all[..i + 1][..i] == all[..i];
      if all[i] in s.orders && !OrderStatusOf(s, s.orders[all[i]], nowMs).OrderInvalid? {
        ids := ids + [all[i]];
      }
    }
    assert all[..|all|] == all;
    shown := Page(ids, page);
    next := page * ORDERS_PER_PAGE < |ids|;
  }

  /** What a client collects that follows the "next" links from a page on. */
  function Collected(ids: seq<Id>, page: nat): seq<Id>
    requires page > 0
    decreases |ids| - (page - 1) * ORDERS_PER_PAGE
  {
    Page(ids, page) + (if HasNext(ids, page) then Collected(ids, page + 1) else [])
  }

  lemma {:induction false} CollectedFrom(ids: seq<Id>, page: nat)
    requires page > 0
    ensures Collected(ids, page) == Slice(ids, (page - 1) * ORDERS_PER_PAGE, (page - 1) * ORDERS_PER_PAGE + |ids|)
    decreases |ids| - (page - 1) * ORDERS_PER_PAGE
  {
    if HasNext(ids, page) {
      CollectedFrom(ids, page + 1);
    }
  }

  /** The pages, followed from the first, are the whole list in order. */
  lemma PagesAreTheList(ids: seq<Id>)
    ensures Collected(ids, 1) == ids
  {
    CollectedFrom(ids, 1);
  }

  lemma {:induction false} ShowingExact(s: Store, ids: seq<Id>, nowMs: int)
    ensures forall id :: id in Showing(s, ids, nowMs) <==> id in ids && Shows(s, id, nowMs)
    ensures |Showing(s, ids, nowMs)| <= |ids|
  {
    if ids != [] {
      ShowingExact(s, ids[..|ids| - 1], nowMs);
      assert ids == ids[..|ids| - 1] + [ids[|ids| - 1]];
    }
  }

  /** A page is a hundred orders, and one that has a next page is full. */
  lemma HundredAPage(ids: seq<Id>, page: nat)
    requires page > 0
    ensures |Page(ids, page)| <= 100
    ensures HasNext(ids, page) <==> 100 * page < |ids|
    ensures HasNext(ids, page) ==> Page(ids, page) == ids[100 * page - 100..100 * page]
  {
  }

  /** The same things, some left out. */
  ghost predicate InOrder(few: seq<Id>, all: seq<Id>)
  {
    exists at: seq<nat> :: Picks(few, all, at)
  }

  ghost predicate Picks(few: seq<Id>, all: seq<Id>, at: seq<nat>)
  {
    && |at| == |few| && (forall i :: 0 <= i < |few| ==> at[i] < |all| && all[at[i]] == few[i])
    && forall i, j :: 0 <= i < j < |at| ==> at[i] < at[j]
  }

  lemma {:induction false} ShowingPicks(s: Store, ids: seq<Id>, nowMs: int) returns (at: seq<nat>)
    ensures Picks(Showing(s, ids, nowMs), ids, at)
  {
    at := [];
    if ids != [] {
      var last := |ids| - 1;
      at := ShowingPicks(s, ids[..last], nowMs);
      if Shows(s, ids[last], nowMs) {
        at := at + [last];
      }
    }
  }

  /** A list kept to a thousand orders never links past its tenth page. */
  lemma LinksStayShort(s: Store, ids: seq<Id>, nowMs: int, page: nat)
    requires |ids| <= MAX_ORDERS_PER_ACCOUNT
    requires HasNext(Showing(s, ids, nowMs), page)
    ensures page + 1 <= 10
  {
    ShowingExact(s, ids, nowMs);
  }

  lemma {:induction false} ShowingApart(s: Store, ids: seq<Id>, nowMs: int)
    requires EachOnce(ids)
    ensures EachOnce(Showing(s, ids, nowMs))
  {
    if ids != [] {
      var fewer, last := ids[..|ids| - 1], ids[|ids| - 1];
      ShowingApart(s, fewer, nowMs);
      ShowingExact(s, fewer, nowMs);
      assert last !in fewer;
    }
  }

  lemma LastOfApart(items: seq<Id>, n: nat)
    requires forall i :: 0 <= i < |items| ==> items[i] !in items[..i]
    ensures EachOnce(LastOf(items, n))
  {
    forall i, j | 0 <= i < j < |items| ensures items[i] != items[j] {
      assert items[j] !in items[..j] && items[..j][i] == items[i];
    }
  }

  /** In every state of every run: following the links from the first page collects,
      each once and in the order they were made, exactly those of the account's last
      thousand orders that are stored and not shown "invalid". */
  lemma AlwaysEachOnce(p: Params, events: seq<Event>, accountId: Id)
    requires accountId in After(p, events).store.accounts
    ensures accountId in After(p, events).created
    ensures var w := After(p, events);
            var made := w.created[accountId];
            var last := if |made| <= 1000 then made else made[|made| - 1000..];
            var collected := Collected(Showing(w.store, w.store.accounts[accountId].orderIds, w.guard.now), 1);
            && EachOnce(collected) && InOrder(collected, last)
            && forall o :: o in collected <==>
                 o in last && o in w.store.orders
                 && !OrderStatusOf(w.store, w.store.orders[o], w.guard.now).OrderInvalid?
  {
    var w := After(p, events);
    AlwaysListed(p, events);
    AlwaysCreatedOnce(p, events);
    ListIsTheLast(p, events, accountId);
    LastOfApart(w.created[accountId], MAX_ORDERS_PER_ACCOUNT);
    var ids := w.store.accounts[accountId].orderIds;
    ShowingApart(w.store, ids, w.guard.now);
    ShowingExact(w.store, ids, w.guard.now);
    var at := ShowingPicks(w.store, ids, w.guard.now);
    PagesAreTheList(Showing(w.store, ids, w.guard.now));
  }
}
