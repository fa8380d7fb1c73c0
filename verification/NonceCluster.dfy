/** Replay-Nonces presented on any number of nodes (section 6.5 of RFC 8555):
    the node's own history first, then a claim. A spend once made on one node may
    reach another at any time after, however often; a node's expired entries may
    go at any time. */
module NonceCluster {
  import opened Basics
  import opened OnceGuard
  import opened NonceHistory

  type Node = nat

  datatype World = World(
    guard: State,
    expiry: map<Item, int>,
    spent: map<Node, History>,
    spends: seq<(Node, Item)>,
    accepted: seq<(Item, Request)>)

  const EMPTY := World(START, map[], map[], [], [])

  /** `Present` is one synchronous stretch of `authenticate`: the nonce's expiry
      is checked, then, some milliseconds later, it is spent here. `ClaimAnswered`
      is the claim in the table, `Accept` the handler going on with it. */
  datatype Event =
    | Pass(ms: nat)
    | Mint(nonce: Item, expiresS: int)
    | Present(req: Request, node: Node, nonce: Item, late: nat, limit: int)
    | ClaimAnswered(req: Request)
    | Accept(req: Request)
    | StoreFailed(req: Request)
    | Replicate(from: Node, to: Node, nonce: Item)
    | Eject(node: Node)
    | Sweep(nonce: Item)

  function HistoryOf(w: World, node: Node): History
  {
    if node in w.spent then w.spent[node] else map[]
  }

  predicate May(p: Params, w: World, e: Event)
  {
    match e
    case Mint(nonce, expiresS) => Enabled(p, w.guard, Create(nonce, expiresS * 1000))
    case Present(req, node, nonce, late, limit) =>
      nonce in w.expiry && w.guard.now / 1000 < w.expiry[nonce] && Enabled(p, w.guard, Check(req, nonce))
    case ClaimAnswered(req) => Enabled(p, w.guard, Answer(req))
    case Accept(req) => Enabled(p, w.guard, Start(req))
    case StoreFailed(req) =>
      req in w.guard.requests && (w.guard.requests[req].Asking? || w.guard.requests[req].Holding?)
    case Replicate(from, to, nonce) => (from, nonce) in w.spends && nonce in w.expiry
    case _ => true
  }

  /** The guard after the check and the wait, as the spend reads its clock. */
  function Seen(p: Params, w: World, e: Event): State
    requires e.Present?
  {
    Do(p, Do(p, w.guard, Check(e.req, e.nonce)), Tick(e.late))
  }

  function Apply(p: Params, w: World, e: Event): World
  {
    if !May(p, w, e) then w
    else
      match e
      case Pass(ms) => w.(guard := Do(p, w.guard, Tick(ms)))
      case Mint(nonce, expiresS) =>
        w.(guard := Do(p, w.guard, Create(nonce, expiresS * 1000)), expiry := w.expiry[nonce := expiresS])
      case Present(req, node, nonce, late, limit) =>
        var seen := Seen(p, w, e);
        var (history, now) := Spend(HistoryOf(w, node), nonce, w.expiry[nonce], seen.now / 1000, limit);
        if now then
          w.(guard := Do(p, seen, Ask(req)), spent := w.spent[node := history], spends := w.spends + [(node, nonce)])
        else
          w.(guard := Do(p, seen, Abandon(req)), spent := w.spent[node := history])
      case ClaimAnswered(req) => w.(guard := Do(p, w.guard, Answer(req)))
      case Accept(req) =>
        w.(guard := Do(p, Do(p, w.guard, Start(req)), Keep(req)),
           accepted := w.accepted + [(w.guard.requests[req].item, req)])
      case StoreFailed(req) => w.(guard := Do(p, w.guard, Abandon(req)))
      case Replicate(from, to, nonce) =>
        w.(spent := w.spent[to := HistoryOf(w, to)[nonce := w.expiry[nonce]]])
      case Eject(node) => w.(spent := w.spent[node := Live(HistoryOf(w, node), w.guard.now / 1000)])
      case Sweep(nonce) => w.(guard := Do(p, w.guard, Purge(nonce)))
  }

  function After(p: Params, events: seq<Event>): World
  {
    if events == [] then EMPTY
    else Apply(p, After(p, events[..|events| - 1]), events[|events| - 1])
  }

  // ----- one process: the history alone ------------------------------------

  /** Every entry of a history carries the nonce's own expiry. */
  ghost predicate Faithful(h: History, expiry: map<Item, int>)
  {
    forall nonce :: nonce in h ==> nonce in expiry && h[nonce] == expiry[nonce]
  }

  /** A nonce spent here and not yet expired is in the history. */
  ghost predicate Remembered(w: World)
  {
    forall i :: 0 <= i < |w.spends| ==>
      var (node, nonce) := w.spends[i];
      nonce in w.expiry && (w.guard.now / 1000 < w.expiry[nonce] ==> nonce in HistoryOf(w, node))
  }

  ghost predicate Dates(w: World)
  {
    && (forall node :: Faithful(HistoryOf(w, node), w.expiry))
    && w.guard.deadlines.Keys == w.expiry.Keys
  }

  ghost predicate SpentOnce(w: World)
  {
    forall i, j :: 0 <= i < j < |w.spends| ==> w.spends[i] != w.spends[j]
  }

  /** What an event leaves of a node's history. */
  lemma HistoryAfter(p: Params, w: World, e: Event, node: Node)
    requires May(p, w, e)
    ensures HistoryOf(Apply(p, w, e), node) ==
            if e.Present? && e.node == node then
              Spend(HistoryOf(w, node), e.nonce, w.expiry[e.nonce], Seen(p, w, e).now / 1000, e.limit).0
            else if e.Replicate? && e.to == node then
              HistoryOf(w, node)[e.nonce := w.expiry[e.nonce]]
            else if e.Eject? && e.node == node then Live(HistoryOf(w, node), w.guard.now / 1000)
            else HistoryOf(w, node)
  {
  }

  lemma FaithfulKept(p: Params, w: World, e: Event, node: Node)
    requires Dates(w) && May(p, w, e)
    ensures Faithful(HistoryOf(Apply(p, w, e), node), w.expiry)
  {
    HistoryAfter(p, w, e, node);
    assert Faithful(HistoryOf(w, node), w.expiry);
    if e.Present? {
      SpendRemembers(HistoryOf(w, node), e.nonce, w.expiry[e.nonce], Seen(p, w, e).now / 1000, e.limit);
    }
  }

  lemma DeadlinesOf(p: Params, w: World, e: Event)
    requires May(p, w, e)
    ensures Apply(p, w, e).guard.deadlines ==
            if e.Mint? then w.guard.deadlines[e.nonce := e.expiresS * 1000] else w.guard.deadlines
  {
    if e.Present? {
      var checked := Do(p, w.guard, Check(e.req, e.nonce));
      DeadlinesAfter(p, w.guard, Check(e.req, e.nonce));
      DeadlinesAfter(p, checked, Tick(e.late));
      DeadlinesAfter(p, Seen(p, w, e), Ask(e.req));
      DeadlinesAfter(p, Seen(p, w, e), Abandon(e.req));
    }
  }

  lemma DatesKept(p: Params, w: World, e: Event)
    requires Dates(w) && May(p, w, e)
    ensures Dates(Apply(p, w, e))
  {
    DeadlinesOf(p, w, e);
    assert Apply(p, w, e).expiry == if e.Mint? then w.expiry[e.nonce := e.expiresS] else w.expiry;
    forall node { FaithfulKept(p, w, e, node); }
  }

  lemma PresentRemembers(p: Params, w: World, e: Event)
    requires Remembered(w) && SpentOnce(w) && Dates(w) && May(p, w, e) && e.Present?
    ensures Remembered(Apply(p, w, e)) && SpentOnce(Apply(p, w, e))
  {
    var seen, w' := Seen(p, w, e), Apply(p, w, e);
    assert Faithful(HistoryOf(w, e.node), w.expiry);
    SpendRemembers(HistoryOf(w, e.node), e.nonce, w.expiry[e.nonce], seen.now / 1000, e.limit);
    assert w'.guard.now == seen.now;
  }

  lemma ApplyRemembers(p: Params, w: World, e: Event)
    requires Remembered(w) && SpentOnce(w) && Dates(w)
    ensures Remembered(Apply(p, w, e)) && SpentOnce(Apply(p, w, e))
  {
    if May(p, w, e) && e.Present? {
      PresentRemembers(p, w, e);
    } else if e.Eject? {
      assert Faithful(HistoryOf(w, e.node), w.expiry);
    }
  }

  /** In every run, with no help from the claims: no node spends a nonce twice. */
  lemma {:induction false} OncePerNode(p: Params, events: seq<Event>)
    ensures Dates(After(p, events)) && Remembered(After(p, events)) && SpentOnce(After(p, events))
  {
    if events != [] {
      OncePerNode(p, events[..|events| - 1]);
      if May(p, After(p, events[..|events| - 1]), events[|events| - 1]) {
        DatesKept(p, After(p, events[..|events| - 1]), events[|events| - 1]);
      }
      ApplyRemembers(p, After(p, events[..|events| - 1]), events[|events| - 1]);
    }
  }

  predicate LocalWithin(e: Event, node: Node, limit: int)
  {
    match e
    case Present(_, at, _, _, l) => at == node ==> l == limit
    case Replicate(_, to, _) => to != node
    case _ => true
  }

  /** A process nothing replicates into never holds more than its setting. */
  lemma {:induction false} HistoryBounded(p: Params, events: seq<Event>, node: Node, limit: int)
    requires limit > 0 && forall i :: 0 <= i < |events| ==> LocalWithin(events[i], node, limit)
    ensures |HistoryOf(After(p, events), node)| <= limit
  {
    if events != [] {
      var w, e := After(p, events[..|events| - 1]), events[|events| - 1];
      HistoryBounded(p, events[..|events| - 1], node, limit);
      assert LocalWithin(e, node, limit);
      if May(p, w, e) {
        HistoryAfter(p, w, e, node);
        LiveIsSmaller(HistoryOf(w, node), w.guard.now / 1000);
        if e.Present? && e.node == node {
          SpendBounded(HistoryOf(w, node), e.nonce, w.expiry[e.nonce], Seen(p, w, e).now / 1000, limit);
        }
      }
    }
  }

  // ----- every node: the claim ---------------------------------------------

  ghost predicate Ledger(w: World)
  {
    && (forall i :: 0 <= i < |w.accepted| ==>
          var req := w.accepted[i].1;
          req in w.guard.requests && w.guard.requests[req].Kept? && w.guard.requests[req].item == w.accepted[i].0)
    && (forall i, j :: 0 <= i < j < |w.accepted| ==> w.accepted[i].1 != w.accepted[j].1)
  }

  lemma ApplyGuarded(p: Params, w: World, e: Event)
    requires Guarded(p) && Inv(p, w.guard)
    ensures Inv(p, Apply(p, w, e).guard)
  {
    if May(p, w, e) {
      match e
      case Pass(ms) => DoKeeps(p, w.guard, Tick(ms));
      case Mint(nonce, expiresS) => DoKeeps(p, w.guard, Create(nonce, expiresS * 1000));
      case Present(req, node, nonce, late, limit) =>
        DoKeeps(p, w.guard, Check(req, nonce));
        DoKeeps(p, Do(p, w.guard, Check(req, nonce)), Tick(late));
        DoKeeps(p, Seen(p, w, e), Ask(req));
        DoKeeps(p, Seen(p, w, e), Abandon(req));
      case ClaimAnswered(req) => DoKeeps(p, w.guard, Answer(req));
      case Accept(req) =>
        DoKeeps(p, w.guard, Start(req));
        DoKeeps(p, Do(p, w.guard, Start(req)), Keep(req));
      case StoreFailed(req) => DoKeeps(p, w.guard, Abandon(req));
      case Sweep(nonce) => DoKeeps(p, w.guard, Purge(nonce));
      case _ =>
    }
  }

  lemma ApplyLedger(p: Params, w: World, e: Event)
    requires Ledger(w)
    ensures Ledger(Apply(p, w, e))
  {
    if e.Accept? {
      AcceptLedger(p, w, e);
    }
  }

  lemma AcceptLedger(p: Params, w: World, e: Event)
    requires Ledger(w) && e.Accept?
    ensures Ledger(Apply(p, w, e))
  {
    var w' := Apply(p, w, e);
    forall i | 0 <= i < |w.accepted| ensures w'.accepted[i] == w.accepted[i] {}
  }

  ghost predicate AcceptedApart(w: World)
  {
    forall i, j :: 0 <= i < j < |w.accepted| ==> w.accepted[i].0 != w.accepted[j].0
  }

  /** Over every interleaving on any number of nodes: a nonce is accepted at
      most once. */
  lemma {:induction false} AcceptedOnce(p: Params, events: seq<Event>)
    requires Guarded(p)
    ensures Inv(p, After(p, events).guard) && Ledger(After(p, events))
    ensures AcceptedApart(After(p, events))
  {
    var w := After(p, events);
    if events != [] {
      var before := After(p, events[..|events| - 1]);
      AcceptedOnce(p, events[..|events| - 1]);
      ApplyGuarded(p, before, events[|events| - 1]);
      ApplyLedger(p, before, events[|events| - 1]);
    }
    forall i, j | 0 <= i < j < |w.accepted| ensures w.accepted[i].0 != w.accepted[j].0 {
      assert Owns(w.guard, w.accepted[i].1, w.accepted[i].0) && Owns(w.guard, w.accepted[j].1, w.accepted[j].0);
    }
  }

  // ----- a fresh nonce is accepted ------------------------------------------

  /** Minted, not expired, not in the node's history, where there is room for it, and
      claimed by nobody. */
  predicate Fresh(w: World, req: Request, node: Node, nonce: Item, limit: int)
  {
    && req !in w.guard.requests && nonce in w.expiry && w.guard.now < w.expiry[nonce] * 1000
    && nonce !in HistoryOf(w, node) && !Claimed(w.guard.claims, nonce, w.guard.now)
    && (limit <= 0
        || |set k | k in HistoryOf(w, node) && HistoryOf(w, node)[k] > w.guard.now / 1000| < limit)
  }

  lemma FreshIsSpent(p: Params, w: World, req: Request, node: Node, nonce: Item, limit: int)
    requires Dates(w) && Fresh(w, req, node, nonce, limit)
    requires nonce in w.guard.deadlines && w.guard.deadlines[nonce] == w.expiry[nonce] * 1000
    ensures var w' := Apply(p, w, Present(req, node, nonce, 0, limit));
            && w'.spends == w.spends + [(node, nonce)] && w'.accepted == w.accepted
            && w'.guard.now == w.guard.now && w'.guard.claims == w.guard.claims
            && req in w'.guard.requests && w'.guard.requests[req].Asking?
            && w'.guard.requests[req].item == nonce && w'.guard.requests[req].at == w.guard.now
  {
    SpentIff(HistoryOf(w, node), nonce, w.expiry[nonce], w.guard.now / 1000, limit);
  }

  lemma OneMore(p: Params, events: seq<Event>, e: Event)
    ensures After(p, events + [e]) == Apply(p, After(p, events), e)
  {
    assert (events + [e])[..|events + [e]| - 1] == events;
  }

  /** Where the claims cannot be asked the request is over and nothing is accepted, and
      what was spent for it stays spent. */
  lemma FailedIsOver(p: Params, w: World, req: Request)
    requires req in w.guard.requests && (w.guard.requests[req].Asking? || w.guard.requests[req].Holding?)
    ensures var w', phase := Apply(p, w, StoreFailed(req)), w.guard.requests[req];
            && w' == w.(guard := w'.guard)
            && w'.guard == w.guard.(requests := w.guard.requests[req := Ended(phase.item, phase.at)])
  {
  }

  /** In every run the deadline of a nonce is its expiry second. */
  lemma {:induction false} DeadlineIsExpiry(p: Params, events: seq<Event>)
    ensures var w := After(p, events);
            && w.guard.deadlines.Keys == w.expiry.Keys
            && forall nonce :: nonce in w.expiry ==> w.guard.deadlines[nonce] == w.expiry[nonce] * 1000
  {
    if events != [] {
      var w, e := After(p, events[..|events| - 1]), events[|events| - 1];
      DeadlineIsExpiry(p, events[..|events| - 1]);
      if May(p, w, e) {
        DeadlinesOf(p, w, e);
        assert Apply(p, w, e).expiry == if e.Mint? then w.expiry[e.nonce := e.expiresS] else w.expiry;
      }
    }
  }

  /** A fresh nonce, claimed at once, is accepted; and then no longer at that node. */
  lemma FreshIsAccepted(p: Params, events: seq<Event>, req: Request, node: Node, nonce: Item, limit: int)
    requires p.gapMs > 0 && Fresh(After(p, events), req, node, nonce, limit)
    ensures var w := After(p, events + [Present(req, node, nonce, 0, limit)] + [ClaimAnswered(req)] + [Accept(req)]);
            && w.accepted == After(p, events).accepted + [(nonce, req)]
            && (node, nonce) in w.spends && nonce in HistoryOf(w, node)
  {
    OncePerNode(p, events);
    DeadlineIsExpiry(p, events);
    var e1 := events + [Present(req, node, nonce, 0, limit)];
    FreshIsSpent(p, After(p, events), req, node, nonce, limit);
    OneMore(p, events, Present(req, node, nonce, 0, limit));
    OneMore(p, e1, ClaimAnswered(req));
    OneMore(p, e1 + [ClaimAnswered(req)], Accept(req));
    AcceptedAtOnce(p, After(p, e1), req, nonce);
    HistoryAfter(p, After(p, events), Present(req, node, nonce, 0, limit), node);
  }

  lemma AcceptedAtOnce(p: Params, w: World, req: Request, nonce: Item)
    requires p.gapMs > 0 && !Claimed(w.guard.claims, nonce, w.guard.now)
    requires req in w.guard.requests && w.guard.requests[req].Asking?
    requires w.guard.requests[req].item == nonce && w.guard.requests[req].at == w.guard.now
    ensures var w' := Apply(p, Apply(p, w, ClaimAnswered(req)), Accept(req));
            && w'.accepted == w.accepted + [(nonce, req)] && w'.spent == w.spent && w'.spends == w.spends
  {
  }

  // ----- the bounds are exact ----------------------------------------------

  /** The first moment at which a whole lifetime ends on a whole second. */
  function First(p: Params): nat
  {
    (1000 - p.lifetimeMs % 1000) % 1000
  }

  function Deadline(p: Params): nat { First(p) + p.lifetimeMs }

  lemma WholeSecond(p: Params)
    requires p.lifetimeMs > 0
    ensures Deadline(p) / 1000 * 1000 == Deadline(p)
    ensures First(p) / 1000 == 0 < Deadline(p) / 1000
    ensures (Deadline(p) - 1) / 1000 < Deadline(p) / 1000
  {
  }

  function Last(p: Params): int { Deadline(p) - 1 }

  /** When the first claim lapses, or the last moment to present, if that is later. */
  function Late(p: Params): int
  {
    Max(Last(p), First(p) + Min(MAX_TTL_MS, p.lifetimeMs + SKEW_MS))
  }

  /** Node 0 accepts a nonce at once; it is presented to node 1, which has not been
      told, in its last millisecond, and claimed there when the claim has lapsed. */
  function Act(p: Params, k: nat): Event
    requires p.lifetimeMs > 0 && k < 10
  {
    if k == 0 then Pass(First(p))
    else if k == 1 then Mint("nonce", Deadline(p) / 1000)
    else if k == 2 then Present(0, 0, "nonce", 0, 10)
    else if k == 3 then ClaimAnswered(0)
    else if k == 4 then Accept(0)
    else if k == 5 then Pass(Last(p) - First(p))
    else if k == 6 then Present(1, 1, "nonce", 0, 10)
    else if k == 7 then Pass(Late(p) - Last(p))
    else if k == 8 then ClaimAnswered(1)
    else Accept(1)
  }

  function TwiceAccepted(p: Params): seq<Event>
    requires p.lifetimeMs > 0
  {
    seq(10, k requires 0 <= k < 10 => Act(p, k))
  }

  function GuardScene(p: Params, k: nat): State
  {
    State(if k == 0 then 0 else if k < 6 then First(p) else if k < 8 then Last(p) else Late(p),
          if k < 2 then map[] else map["nonce" := Deadline(p)],
          if k < 4 then map[]
          else if k < 9 then map["nonce" := Claim(0, First(p) + Min(MAX_TTL_MS, p.lifetimeMs + SKEW_MS))]
          else map["nonce" := Claim(1, Late(p) + SKEW_MS + 1)],
          if k < 3 then map[]
          else if k < 7 then map[0 := FirstPhase(p, k)]
          else map[0 := FirstPhase(p, k), 1 := SecondPhase(p, k)])
  }

  function FirstPhase(p: Params, k: nat): Phase
  {
    if k < 4 then Asking("nonce", First(p), p.lifetimeMs + SKEW_MS)
    else if k < 5 then Holding("nonce", First(p)) else Kept("nonce", First(p))
  }

  function SecondPhase(p: Params, k: nat): Phase
  {
    if k < 9 then Asking("nonce", Last(p), SKEW_MS + 1)
    else if k < 10 then Holding("nonce", Last(p)) else Kept("nonce", Last(p))
  }

  function Scene(p: Params, k: nat): World
  {
    var entry: History := map["nonce" := Deadline(p) / 1000];
    World(GuardScene(p, k),
          if k < 2 then map[] else entry,
          if k < 3 then map[] else if k < 7 then map[0 := entry] else map[0 := entry, 1 := entry],
          if k < 3 then [] else if k < 7 then [(0, "nonce")] else [(0, "nonce"), (1, "nonce")],
          if k < 5 then [] else if k < 10 then [("nonce", 0)] else [("nonce", 0), ("nonce", 1)])
  }

  ghost predicate Follows(p: Params, k: nat)
    requires p.lifetimeMs > 0 && k < 10
  {
    May(p, Scene(p, k), Act(p, k)) && Apply(p, Scene(p, k), Act(p, k)) == Scene(p, k + 1)
  }

  lemma Minted(p: Params, k: nat)
    requires p.lifetimeMs > 0 && k < 2
    ensures Follows(p, k)
  {
    WholeSecond(p);
  }

  lemma SpentFirst(expiresS: int, nowS: int)
    ensures Spend(map[], "nonce", expiresS, nowS, 10) == (map["nonce" := expiresS], true)
  {
  }

  /** Presenting is checking and asking at once, with no wait between. */
  lemma PresentedGuard(p: Params, k: nat)
    requires p.lifetimeMs > 0 && (k == 2 || k == 6)
    ensures var req := if k == 2 then 0 else 1;
            && Enabled(p, GuardScene(p, k), Check(req, "nonce"))
            && Do(p, Do(p, Do(p, GuardScene(p, k), Check(req, "nonce")), Tick(0)), Ask(req)) == GuardScene(p, k + 1)
  {
  }

  lemma Presents(p: Params, k: nat)
    requires p.lifetimeMs > 0 && (k == 2 || k == 6)
    ensures Follows(p, k)
  {
    WholeSecond(p);
    PresentedGuard(p, k);
    var E, now := Deadline(p) / 1000, GuardScene(p, k).now / 1000;
    SpentFirst(E, now);
    assert HistoryOf(Scene(p, k), if k == 2 then 0 else 1) == map[];
    assert Seen(p, Scene(p, k), Act(p, k)).now == GuardScene(p, k).now;
  }

  lemma FirstClaims(p: Params)
    requires p.lifetimeMs > 0 && p.gapMs > 0
    ensures Follows(p, 3)
  {
    assert Do(p, GuardScene(p, 3), Answer(0)) == GuardScene(p, 4);
  }

  lemma Accepts(p: Params, k: nat)
    requires p.lifetimeMs > 0 && (k == 4 || k == 9)
    ensures Follows(p, k)
  {
    var req := if k == 4 then 0 else 1;
    assert Do(p, Do(p, GuardScene(p, k), Start(req)), Keep(req)) == GuardScene(p, k + 1);
  }

  lemma Waits(p: Params, k: nat)
    requires p.lifetimeMs > 0 && (k == 5 || k == 7)
    ensures Follows(p, k)
  {
  }

  lemma SecondGranted(p: Params)
    requires p.lifetimeMs > 0 && p.gapMs > 0 && !Guarded(p)
    ensures Enabled(p, GuardScene(p, 8), Answer(1))
    ensures Do(p, GuardScene(p, 8), Answer(1)) == GuardScene(p, 9)
  {
    assert Late(p) - Last(p) < p.gapMs;
  }

  lemma SecondClaims(p: Params)
    requires p.lifetimeMs > 0 && p.gapMs > 0 && !Guarded(p)
    ensures Follows(p, 8)
  {
    SecondGranted(p);
  }

  lemma {:induction false} ScenesFollow(p: Params, k: nat)
    requires p.lifetimeMs > 0 && p.gapMs > 0 && !Guarded(p) && k <= 10
    ensures After(p, TwiceAccepted(p)[..k]) == Scene(p, k)
  {
    if k > 0 {
      ScenesFollow(p, k - 1);
      if k <= 2 {
        Minted(p, k - 1);
      } else if k == 3 || k == 7 {
        Presents(p, k - 1);
      } else if k == 4 {
        FirstClaims(p);
      } else if k == 5 || k == 10 {
        Accepts(p, k - 1);
      } else if k == 6 || k == 8 {
        Waits(p, k - 1);
      } else {
        SecondClaims(p);
      }
      assert TwiceAccepted(p)[..k][..k - 1] == TwiceAccepted(p)[..k - 1];
    }
  }

  /** At most once in every run, exactly when a claim comes within 60,001 ms of its
      check and a nonce's lifetime leaves that much of thirty days. */
  lemma AcceptedOnceIffGuarded(p: Params)
    requires p.lifetimeMs > 0 && p.gapMs > 0
    ensures p.gapMs <= 60001 && p.lifetimeMs + p.gapMs <= 2592000001 <==>
            forall events :: AcceptedApart(After(p, events))
  {
    if Guarded(p) {
      forall events ensures AcceptedApart(After(p, events)) {
        AcceptedOnce(p, events);
      }
    } else {
      ScenesFollow(p, 10);
      assert TwiceAccepted(p)[..10] == TwiceAccepted(p);
      var w := Scene(p, 10);
      assert w.accepted[0].0 == w.accepted[1].0;
      assert !AcceptedApart(After(p, TwiceAccepted(p)));
    }
  }

  /** For every value `acme.nonceLifetimeS` may have the gap alone decides. */
  lemma NonceLifetimeCovered(nonceLifetimeS: nat, gapMs: nat)
    requires 5 <= nonceLifetimeS <= 86400 && gapMs > 0
    ensures (forall events :: AcceptedApart(After(Params(nonceLifetimeS * 1000, gapMs), events)))
       <==> gapMs <= 60001
  {
    AcceptedOnceIffGuarded(Params(nonceLifetimeS * 1000, gapMs));
  }
}
