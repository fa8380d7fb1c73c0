/** The bound on the gap is exact in one process too: with a longer one, two
    finalize requests for one order both issue. */
module ProcessGap {
  import opened Wrappers
  import opened OnceGuard
  import opened ProcessGuard
  import opened AcmeStore
  import opened AcmeRun
  import opened AcmeSafety
  import CsrNames

  const ENTRY := CsrNames.Entry("application", "app")

  /** From the order's last millisecond until a claim made in it lapses. */
  const LAPSE_MS := SKEW_MS + 1

  const EVENTS := 18

  function Last(p: Params): int { p.lifetimeMs - 1 }

  /** Both look at the order in its last millisecond; the first finalizes it, and
      the second claims once the first claim has lapsed. */
  function Act(p: Params, k: nat): Event
    requires p.lifetimeMs > 0 && k < EVENTS
  {
    if k == 0 then Look(0, "key", [], ENTRY)
    else if k == 1 then Bound(0, "a")
    else if k == 2 then Authenticate(3, "a")
    else if k == 3 then NewOrder(3, "order", ["z"], "profile", None, p.lifetimeMs)
    else if k == 4 then Pass(Last(p))
    else if k == 5 then Authenticate(1, "a")
    else if k == 6 then Authenticate(2, "a")
    else if k == 7 then FinalizeLook(1, "order")
    else if k == 8 then FinalizeLook(2, "order")
    else if k == 9 then FinalizeAsk(1)
    else if k == 10 then FinalizeAsk(2)
    else if k == 11 then FinalizeClaimed(1)
    else if k == 12 then FinalizeBegun(1)
    else if k == 13 then FinalizeIssued(1, "first", "")
    else if k == 14 then Pass(LAPSE_MS)
    else if k == 15 then FinalizeClaimed(2)
    else if k == 16 then FinalizeBegun(2)
    else FinalizeIssued(2, "second", "")
  }

  function BothIssue(p: Params): seq<Event>
    requires p.lifetimeMs > 0
  {
    seq(EVENTS, k requires 0 <= k < EVENTS => Act(p, k))
  }

  // ----- the world after each event --------------------------------------------

  function GuardScene(p: Params, k: nat): State
  {
    State(if k < 5 then 0 else if k < 15 then Last(p) else Last(p) + LAPSE_MS,
          if k < 4 then map[] else map["order" := p.lifetimeMs],
          if k < 12 then map[]
          else if k < 16 then map["order" := Claim(1, Last(p) + LAPSE_MS)]
          else map["order" := Claim(2, Last(p) + LAPSE_MS + LAPSE_MS)],
          if k < 8 then map[]
          else if k < 9 then map[1 := Checked("order", Last(p))]
          else map[1 := FirstPhase(p, k), 2 := SecondPhase(p, k)])
  }

  function FirstPhase(p: Params, k: nat): Phase
  {
    if k < 10 then Checked("order", Last(p))
    else if k < 12 then Asking("order", Last(p), LAPSE_MS)
    else if k < 13 then Holding("order", Last(p))
    else if k < 14 then Working("order", Last(p)) else Kept("order", Last(p))
  }

  function SecondPhase(p: Params, k: nat): Phase
  {
    if k < 11 then Checked("order", Last(p))
    else if k < 16 then Asking("order", Last(p), LAPSE_MS)
    else if k < 17 then Holding("order", Last(p))
    else if k < 18 then Working("order", Last(p)) else Kept("order", Last(p))
  }

  function TheOrder(p: Params, k: nat): Order
  {
    Order("a",
          if k < 13 then Ready else if k < 14 then Processing
          else if k < 17 then Valid else if k < 18 then Processing else Valid,
          "profile", ["z"], p.lifetimeMs, None,
          if k < 14 then None else if k < 18 then Some("first") else Some("second"))
  }

  const RECORD := Certificate("a", "order", ENTRY, "profile", "", None)

  function TheAuthz(p: Params): Authz
  {
    Authz("a", ValidAuthz, p.lifetimeMs)
  }

  function StoreScene(p: Params, k: nat): Store
  {
    Store(if k < 2 then map[]
          else map["a" := Account("key", ActiveAccount, [], ENTRY, if k < 4 then [] else ["order"])],
          if k < 2 then map[] else map["key" := "a"],
          if k < 4 then map[] else map["order" := TheOrder(p, k)],
          if k < 4 then map[] else map["z" := TheAuthz(p)],
          if k < 14 then map[]
          else if k < 18 then map["first" := RECORD] else map["first" := RECORD, "second" := RECORD],
          map[])
  }

  function PendingScene(k: nat): map<Request, Pending>
  {
    if k == 0 then map[]
    else if k == 1 then map[0 := Joining("key", [], ENTRY)]
    else if k == 2 then map[]
    else if k == 3 then map[3 := Signed("a")]
    else if k < 6 then map[]
    else if k == 6 then map[1 := Signed("a")]
    else if k == 7 then map[1 := Signed("a"), 2 := Signed("a")]
    else if k == 8 then map[1 := Finalizing("a"), 2 := Signed("a")]
    else if k < 14 then map[1 := Finalizing("a"), 2 := Finalizing("a")]
    else if k < 18 then map[2 := Finalizing("a")]
    else map[]
  }

  function Scene(p: Params, k: nat): World
  {
    World(GuardScene(p, k), StoreScene(p, k), PendingScene(k),
          if k < 2 then map[] else if k < 4 then map["a" := []] else map["a" := ["order"]],
          if k < 13 then map[] else if k < 17 then map["order" := 1] else map["order" := 2])
  }

  ghost predicate Follows(p: Params, k: nat)
    requires p.lifetimeMs > 0 && k < EVENTS
  {
    May(p, Scene(p, k), Act(p, k)) && Apply(p, Scene(p, k), Act(p, k)) == Scene(p, k + 1)
  }

  /** One account. */
  lemma Joins(p: Params, k: nat)
    requires p.lifetimeMs > 0 && k < 3
    ensures Follows(p, k)
  {
  }

  /** The store after new-order, by itself. */
  lemma Placed(p: Params)
    ensures CreateOrder(CreateAuthzs(StoreScene(p, 3), ["z"], TheAuthz(p)), "a", "order", TheOrder(p, 4), 0)
            == StoreScene(p, 4)
  {
    var s := CreateAuthzs(StoreScene(p, 3), ["z"], TheAuthz(p));
    assert s.authzs == map["z" := TheAuthz(p)];
    assert PruneOrders(s, 0) == s;
    assert LastOf([] + ["order"], MAX_ORDERS_PER_ACCOUNT) == ["order"];
  }

  lemma Orders(p: Params)
    requires p.lifetimeMs > 0
    ensures Follows(p, 3)
  {
    Placed(p);
    assert Ordered(Scene(p, 3), Act(p, 3)) == TheOrder(p, 4);
    assert StoreAfter(p, Scene(p, 3), Act(p, 3)) == StoreScene(p, 4);
  }

  lemma Signs(p: Params, k: nat)
    requires p.lifetimeMs > 0 && 4 <= k < 7
    ensures Follows(p, k)
  {
  }

  /** The order is ready until its last millisecond. */
  lemma StillReady(p: Params, k: nat)
    requires p.lifetimeMs > 0 && 5 <= k < 10
    ensures OrderStatusOf(StoreScene(p, k), TheOrder(p, k), Last(p)).OrderReady?
  {
    ReadyMeans(StoreScene(p, k), TheOrder(p, k), Last(p));
  }

  lemma Looks(p: Params, k: nat)
    requires p.lifetimeMs > 0 && (k == 7 || k == 8)
    ensures Follows(p, k)
  {
    StillReady(p, k);
  }

  lemma AskedGuard(p: Params, k: nat)
    requires p.lifetimeMs > 0 && (k == 9 || k == 10)
    ensures var r := k - 8;
            && Enabled(p, GuardScene(p, k), Ask(r)) && Do(p, GuardScene(p, k), Ask(r)) == GuardScene(p, k + 1)
  {
  }

  lemma Asks(p: Params, k: nat)
    requires p.lifetimeMs > 0 && (k == 9 || k == 10)
    ensures Follows(p, k)
  {
    AskedGuard(p, k);
    assert Act(p, k) == FinalizeAsk(k - 8);
    assert StoreScene(p, k) == StoreScene(p, k + 1);
  }

  lemma FirstGranted(p: Params)
    requires p.lifetimeMs > 0 && p.gapMs > 0
    ensures Enabled(p, GuardScene(p, 11), Answer(1)) && Do(p, GuardScene(p, 11), Answer(1)) == GuardScene(p, 12)
    ensures !Claimed(GuardScene(p, 11).claims, "order", GuardScene(p, 11).now)
  {
  }

  lemma FirstClaims(p: Params)
    requires p.lifetimeMs > 0 && p.gapMs > 0
    ensures Follows(p, 11)
  {
    FirstGranted(p);
    assert Act(p, 11) == FinalizeClaimed(1);
    assert StoreScene(p, 11) == StoreScene(p, 12);
  }

  lemma FirstMayBegin(p: Params)
    requires p.lifetimeMs > 0 && p.gapMs > 0
    ensures May(p, Scene(p, 12), FinalizeBegun(1)) && Do(p, GuardScene(p, 12), Start(1)) == GuardScene(p, 13)
  {
  }

  lemma FirstBegins(p: Params)
    requires p.lifetimeMs > 0 && p.gapMs > 0
    ensures Follows(p, 12)
  {
    FirstMayBegin(p);
    assert Act(p, 12) == FinalizeBegun(1);
    assert StoreAfter(p, Scene(p, 12), FinalizeBegun(1)) == StoreScene(p, 13);
  }

  function RecordOf(k: nat): Id
  {
    if k == 13 then "first" else "second"
  }

  /** The store after an issuance, by itself. */
  lemma Recorded(p: Params, k: nat)
    requires k == 13 || k == 17
    ensures WithOrder(WithCertificate(StoreScene(p, k), RecordOf(k), RECORD, None), "order",
                      TheOrder(p, k).(status := Valid, certificateId := Some(RecordOf(k))))
            == StoreScene(p, k + 1)
  {
  }

  lemma Finished(p: Params, k: nat, r: Request)
    requires (k == 13 && r == 1) || (k == 17 && r == 2)
    ensures Enabled(p, GuardScene(p, k), Keep(r)) && Do(p, GuardScene(p, k), Keep(r)) == GuardScene(p, k + 1)
  {
  }

  lemma MayIssue(p: Params, k: nat, r: Request)
    requires (k == 13 && r == 1) || (k == 17 && r == 2)
    ensures May(p, Scene(p, k), FinalizeIssued(r, RecordOf(k), ""))
  {
    Finished(p, k, r);
  }

  lemma IssuedStore(p: Params, k: nat, r: Request)
    requires (k == 13 && r == 1) || (k == 17 && r == 2)
    requires May(p, Scene(p, k), FinalizeIssued(r, RecordOf(k), ""))
    ensures StoreAfter(p, Scene(p, k), FinalizeIssued(r, RecordOf(k), "")) == StoreScene(p, k + 1)
  {
    var s := StoreScene(p, k);
    Recorded(p, k);
    assert Certificate("a", "order", s.accounts["a"].entry, s.orders["order"].profile, "", None) == RECORD;
  }

  lemma Issues(p: Params, k: nat, r: Request)
    requires p.lifetimeMs > 0 && ((k == 13 && r == 1) || (k == 17 && r == 2))
    ensures Follows(p, k)
  {
    assert Act(p, k) == FinalizeIssued(r, RecordOf(k), "");
    MayIssue(p, k, r);
    Finished(p, k, r);
    IssuedStore(p, k, r);
    IssuedRest(p, k, r);
  }

  lemma IssuedRest(p: Params, k: nat, r: Request)
    requires (k == 13 && r == 1) || (k == 17 && r == 2)
    requires May(p, Scene(p, k), FinalizeIssued(r, RecordOf(k), ""))
    ensures var w, e := Scene(p, k), FinalizeIssued(r, RecordOf(k), "");
            && PendingAfter(p, w, e) == PendingScene(k + 1)
            && CreatedAfter(p, w, e) == Scene(p, k + 1).created && HolderAfter(p, w, e) == Scene(p, k + 1).holder
  {
  }

  lemma Waits(p: Params)
    requires p.lifetimeMs > 0
    ensures Follows(p, 14)
  {
    assert StoreScene(p, 14) == StoreScene(p, 15);
  }

  lemma SecondGranted(p: Params)
    requires p.lifetimeMs > 0 && !Prompt(p)
    ensures Enabled(p, GuardScene(p, 15), Answer(2)) && Do(p, GuardScene(p, 15), Answer(2)) == GuardScene(p, 16)
    ensures !Claimed(GuardScene(p, 15).claims, "order", GuardScene(p, 15).now)
  {
  }

  lemma SecondClaims(p: Params)
    requires p.lifetimeMs > 0 && !Prompt(p)
    ensures Follows(p, 15)
  {
    SecondGranted(p);
    assert Act(p, 15) == FinalizeClaimed(2);
    assert StoreScene(p, 15) == StoreScene(p, 16);
  }

  lemma SecondMayBegin(p: Params)
    requires p.lifetimeMs > 0 && !Prompt(p)
    ensures May(p, Scene(p, 16), FinalizeBegun(2)) && Do(p, GuardScene(p, 16), Start(2)) == GuardScene(p, 17)
  {
  }

  lemma SecondBegins(p: Params)
    requires p.lifetimeMs > 0 && !Prompt(p)
    ensures Follows(p, 16)
  {
    SecondMayBegin(p);
    assert Act(p, 16) == FinalizeBegun(2);
    assert StoreAfter(p, Scene(p, 16), FinalizeBegun(2)) == StoreScene(p, 17);
  }

  lemma Next(p: Params, k: nat)
    requires k < EVENTS && p.lifetimeMs > 0 && p.gapMs > 0 && !Prompt(p)
    ensures Follows(p, k)
  {
    if k < 3 {
      Joins(p, k);
    } else if k == 3 {
      Orders(p);
    } else if k < 7 {
      Signs(p, k);
    } else if k < 9 {
      Looks(p, k);
    } else if k < 11 {
      Asks(p, k);
    } else if k == 11 {
      FirstClaims(p);
    } else if k == 12 {
      FirstBegins(p);
    } else if k == 13 {
      Issues(p, 13, 1);
    } else if k == 14 {
      Waits(p);
    } else if k == 15 {
      SecondClaims(p);
    } else if k == 16 {
      SecondBegins(p);
    } else {
      Issues(p, 17, 2);
    }
  }

  lemma {:induction false} ScenesFollow(p: Params, k: nat)
    requires k <= EVENTS && p.lifetimeMs > 0 && p.gapMs > 0 && !Prompt(p)
    ensures After(p, BothIssue(p)[..k]) == Scene(p, k)
  {
    if k > 0 {
      ScenesFollow(p, k - 1);
      Next(p, k - 1);
      assert BothIssue(p)[..k][..k - 1] == BothIssue(p)[..k - 1];
    }
  }

  /** In one process the records agree with their orders in every run exactly when
      a request claims, and goes on, within 60,001 ms of its look, however long
      an order lives. */
  lemma AgreeIffPrompt(p: Params)
    requires p.lifetimeMs > 0 && p.gapMs > 0
    ensures p.gapMs <= 60001 <==> forall events :: CertificatesAgree(After(p, events).store)
  {
    if Prompt(p) {
      forall events ensures CertificatesAgree(After(p, events).store) {
        RecordsAgree(p, events);
      }
    } else {
      ScenesFollow(p, EVENTS);
      assert BothIssue(p)[..EVENTS] == BothIssue(p);
      var s := StoreScene(p, EVENTS);
      assert "first" in s.certificates && !Agrees(s, "first");
      assert !CertificatesAgree(After(p, BothIssue(p)).store);
    }
  }
}
