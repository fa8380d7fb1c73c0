/** Finalize requests for any number of orders on any number of nodes, each node
    with its own delayed copy of every order's stored status (section 7.4 of
    RFC 8555). A status that was ever written may reach any node at any time,
    in any order and any number of times. */
module FinalizeCluster {
  import opened Basics
  import opened Wrappers
  import opened AcmeStore
  import opened OnceGuard

  type Node = nat

  datatype World = World(
    guard: State,
    home: map<Request, Node>,
    copies: map<(Node, Item), OrderStatus>,
    written: map<Item, seq<OrderStatus>>,
    issued: seq<(Item, Request)>)

  const EMPTY := World(START, map[], map[], map[], [])

  /** `ClaimAnswered` is the claim in the table, `Begun` the handler going on with it:
      between the two, and between a refusal and its release, others act. A
      request may give up before it begins, also with its claim in the table,
      when the answer is lost. */
  datatype Event =
    | Pass(ms: nat)
    | NewOrder(node: Node, order: Item, expires: int)
    | Deliver(node: Node, order: Item, version: nat)
    | Look(req: Request, node: Node, order: Item)
    | AskClaim(req: Request)
    | ClaimAnswered(req: Request)
    | Begun(req: Request)
    | Issued(req: Request)
    | IssueRefused(req: Request)
    | Released(req: Request)
    | GiveUp(req: Request)
    | Sweep(order: Item)

  /** The guard step an event takes, with the cluster's own conditions on it. */
  predicate May(p: Params, w: World, e: Event)
  {
    match e
    case NewOrder(node, order, expires) => Enabled(p, w.guard, Create(order, expires))
    case Deliver(node, order, version) => order in w.written && version < |w.written[order]|
    case Look(req, node, order) =>
      (node, order) in w.copies && w.copies[(node, order)].Ready? && Enabled(p, w.guard, Check(req, order))
    case Begun(req) => Enabled(p, w.guard, Start(req)) && req in w.home
    case Issued(req) => Enabled(p, w.guard, Keep(req)) && req in w.home
    case IssueRefused(req) => Enabled(p, w.guard, Keep(req)) && req in w.home
    case GiveUp(req) => Enabled(p, w.guard, Abandon(req)) && !w.guard.requests[req].Working?
    case _ => true
  }

  /** A node writes an order's status: its own copy at once, the others later. */
  function Write(w: World, node: Node, order: Item, status: OrderStatus): World
  {
    var log := if order in w.written then w.written[order] else [];
    w.(copies := w.copies[(node, order) := status], written := w.written[order := log + [status]])
  }

  function Apply(p: Params, w: World, e: Event): World
  {
    if !May(p, w, e) then w
    else
      match e
      case Pass(ms) => w.(guard := Do(p, w.guard, Tick(ms)))
      case NewOrder(node, order, expires) =>
        Write(w.(guard := Do(p, w.guard, Create(order, expires))), node, order, Ready)
      case Deliver(node, order, version) =>
        w.(copies := w.copies[(node, order) := w.written[order][version]])
      case Look(req, node, order) =>
        w.(guard := Do(p, w.guard, Check(req, order)), home := w.home[req := node])
      case AskClaim(req) => w.(guard := Do(p, w.guard, Ask(req)))
      case ClaimAnswered(req) => w.(guard := Do(p, w.guard, Answer(req)))
      case Begun(req) =>
        Write(w.(guard := Do(p, w.guard, Start(req))), w.home[req], w.guard.requests[req].item, Processing)
      case Issued(req) =>
        var order := w.guard.requests[req].item;
        Write(w.(guard := Do(p, w.guard, Keep(req)), issued := w.issued + [(order, req)]),
              w.home[req], order, Valid)
      case IssueRefused(req) =>
        Write(w.(guard := Do(p, w.guard, Abandon(req))), w.home[req], w.guard.requests[req].item, Ready)
      case Released(req) => w.(guard := Do(p, w.guard, Free(req)))
      case GiveUp(req) => w.(guard := Do(p, w.guard, Abandon(req)))
      case Sweep(order) => w.(guard := Do(p, w.guard, Purge(order)))
  }

  function After(p: Params, events: seq<Event>): World
  {
    if events == [] then EMPTY
    else Apply(p, After(p, events[..|events| - 1]), events[|events| - 1])
  }

  /** No order has two certificates. */
  ghost predicate OneEach(w: World)
  {
    forall i, j :: 0 <= i < j < |w.issued| ==> w.issued[i].0 != w.issued[j].0
  }

  predicate Certified(w: World, order: Item)
  {
    exists i :: 0 <= i < |w.issued| && w.issued[i].0 == order
  }

  /** The guard step an event is; a delivery is none. */
  function GuardStep(e: Event): Step
  {
    match e
    case Pass(ms) => Tick(ms)
    case NewOrder(_, order, expires) => Create(order, expires)
    case Deliver(_, _, _) => Tick(0)
    case Look(req, _, order) => Check(req, order)
    case AskClaim(req) => Ask(req)
    case ClaimAnswered(req) => Answer(req)
    case Begun(req) => Start(req)
    case Issued(req) => Keep(req)
    case IssueRefused(req) => Abandon(req)
    case Released(req) => Free(req)
    case GiveUp(req) => Abandon(req)
    case Sweep(order) => Purge(order)
  }

  lemma Tracks(p: Params, w: World, e: Event)
    requires May(p, w, e)
    ensures Apply(p, w, e).guard == Do(p, w.guard, GuardStep(e))
  {
  }

  /** A node begins to finalize exactly an order it knows as "ready" and that has not
      expired, and a request looks once. */
  lemma LooksAtReady(p: Params, w: World, req: Request, node: Node, order: Item)
    ensures May(p, w, Look(req, node, order)) <==>
            && (node, order) in w.copies && w.copies[(node, order)] == Ready
            && order in w.guard.deadlines && w.guard.now < w.guard.deadlines[order] && req !in w.guard.requests
  {
  }

  /** The certificates are those of distinct requests that kept their claim. */
  ghost predicate Ledger(w: World)
  {
    && (forall i :: 0 <= i < |w.issued| ==>
          var req := w.issued[i].1;
          req in w.guard.requests && w.guard.requests[req].Kept? && w.guard.requests[req].item == w.issued[i].0)
    && (forall i, j :: 0 <= i < j < |w.issued| ==> w.issued[i].1 != w.issued[j].1)
  }

  /** "valid" is written only of an order with a certificate. */
  ghost predicate Marked(w: World)
  {
    && (forall order, k :: order in w.written && 0 <= k < |w.written[order]| && w.written[order][k].Valid? ==>
          Certified(w, order))
    && (forall key :: key in w.copies && w.copies[key].Valid? ==> Certified(w, key.1))
  }

  lemma LedgerKept(p: Params, w: World, e: Event)
    requires Ledger(w) && May(p, w, e)
    ensures Ledger(Apply(p, w, e))
  {
    Tracks(p, w, e);
    forall req: Request { KeptStays(p, w.guard, GuardStep(e), req); }
    assert e.Issued? ==> Apply(p, w, e).issued == w.issued + [(w.guard.requests[e.req].item, e.req)];
    assert !e.Issued? ==> Apply(p, w, e).issued == w.issued;
  }

  lemma MarkedKept(p: Params, w: World, e: Event)
    requires Marked(w) && May(p, w, e)
    ensures Marked(Apply(p, w, e))
  {
    var w' := Apply(p, w, e);
    if e.Issued? {
      assert w'.issued[|w.issued|].0 == w.guard.requests[e.req].item;
      assert w'.issued[..|w.issued|] == w.issued;
    }
    forall order | Certified(w, order) ensures Certified(w', order) {
      var i :| 0 <= i < |w.issued| && w.issued[i].0 == order;
      assert w'.issued[i].0 == order;
    }
  }

  lemma {:induction false} AfterSound(p: Params, events: seq<Event>)
    requires Guarded(p)
    ensures Inv(p, After(p, events).guard) && Ledger(After(p, events)) && Marked(After(p, events))
  {
    if events != [] {
      var w, e := After(p, events[..|events| - 1]), events[|events| - 1];
      AfterSound(p, events[..|events| - 1]);
      if May(p, w, e) {
        Tracks(p, w, e);
        DoKeeps(p, w.guard, GuardStep(e));
        LedgerKept(p, w, e);
        MarkedKept(p, w, e);
      }
    }
  }

  /** Over every interleaving on any number of nodes with stale copies: at most
      one certificate an order, and a node says "valid" only of an order that
      has one. */
  lemma AtMostOneCertificate(p: Params, events: seq<Event>)
    requires Guarded(p)
    ensures OneEach(After(p, events))
    ensures forall key :: key in After(p, events).copies && After(p, events).copies[key].Valid? ==>
              Certified(After(p, events), key.1)
  {
    AfterSound(p, events);
    var w := After(p, events);
    forall i, j | 0 <= i < j < |w.issued| ensures w.issued[i].0 != w.issued[j].0 {
      assert Owns(w.guard, w.issued[i].1, w.issued[i].0) && Owns(w.guard, w.issued[j].1, w.issued[j].0);
    }
  }

  // ----- what was written last ----------------------------------------------

  predicate WorkedOn(w: World, order: Item)
  {
    exists r :: r in w.guard.requests && w.guard.requests[r].Working? && w.guard.requests[r].item == order
  }

  /** The last status written of an order says what has become of it. */
  ghost predicate Current(w: World, order: Item)
    requires order in w.written
  {
    w.written[order] != [] &&
    match w.written[order][|w.written[order]| - 1]
    case Valid => Certified(w, order) && !WorkedOn(w, order)
    case Processing => WorkedOn(w, order) && !Certified(w, order)
    case Ready => !WorkedOn(w, order) && !Certified(w, order)
  }

  ghost predicate AllCurrent(w: World)
  {
    && w.written.Keys == w.guard.deadlines.Keys
    && forall order :: order in w.written ==> Current(w, order)
  }

  /** Nobody but its owner is at work on an order or has its certificate. */
  lemma OneAtWork(p: Params, w: World, req: Request, order: Item)
    requires Inv(p, w.guard) && Ledger(w) && Owns(w.guard, req, order)
    ensures Certified(w, order) ==> w.guard.requests[req].Kept?
    ensures forall r :: r in w.guard.requests && w.guard.requests[r].Working? && w.guard.requests[r].item == order ==>
              r == req
    ensures order in w.guard.deadlines
  {
    if Certified(w, order) {
      var i :| 0 <= i < |w.issued| && w.issued[i].0 == order;
      assert Owns(w.guard, w.issued[i].1, order);
    }
    forall r | r in w.guard.requests && w.guard.requests[r].Working? && w.guard.requests[r].item == order
      ensures r == req
    {
      assert Owns(w.guard, r, order);
    }
  }

  /** Of an order that is not there yet there is no certificate, and no work on it. */
  lemma NothingYet(p: Params, w: World, order: Item)
    requires Inv(p, w.guard) && Ledger(w) && order !in w.guard.deadlines
    ensures !Certified(w, order) && !WorkedOn(w, order)
  {
    forall i | 0 <= i < |w.issued| ensures w.issued[i].0 != order {
      assert Owns(w.guard, w.issued[i].1, w.issued[i].0);
    }
    forall r | r in w.guard.requests && w.guard.requests[r].Working? ensures w.guard.requests[r].item != order {
      assert Owns(w.guard, r, w.guard.requests[r].item);
    }
  }

  /** A step on one order leaves what is said of the others. */
  lemma OthersCurrent(w: World, w': World, order: Item)
    requires order in w.written && Current(w, order) && order in w'.written && w'.written[order] == w.written[order]
    requires Certified(w', order) <==> Certified(w, order)
    requires WorkedOn(w', order) <==> WorkedOn(w, order)
    ensures Current(w', order)
  {
  }

  /** The order an event writes of, if any. */
  function Touched(w: World, e: Event): Option<Item>
  {
    match e
    case NewOrder(_, order, _) => Some(order)
    case Begun(req) => if req in w.guard.requests then Some(w.guard.requests[req].item) else None
    case Issued(req) => if req in w.guard.requests then Some(w.guard.requests[req].item) else None
    case IssueRefused(req) => if req in w.guard.requests then Some(w.guard.requests[req].item) else None
    case _ => None
  }

  lemma UntouchedStay(p: Params, w: World, e: Event, order: Item)
    requires May(p, w, e) && Touched(w, e) != Some(order)
    ensures var w' := Apply(p, w, e);
            && (order in w'.written <==> order in w.written)
            && (order in w.written ==> w'.written[order] == w.written[order])
            && (Certified(w', order) <==> Certified(w, order))
  {
    var w' := Apply(p, w, e);
    assert e.Issued? ==> w'.issued == w.issued + [(w.guard.requests[e.req].item, e.req)];
    if i :| 0 <= i < |w.issued| && w.issued[i].0 == order {
      assert w'.issued[i].0 == order;
    }
    if i :| 0 <= i < |w'.issued| && w'.issued[i].0 == order {
      assert i < |w.issued| && w.issued[i].0 == order;
    }
  }

  lemma UntouchedWork(p: Params, w: World, e: Event, order: Item)
    requires May(p, w, e) && Touched(w, e) != Some(order)
    ensures WorkedOn(Apply(p, w, e), order) <==> WorkedOn(w, order)
  {
    Tracks(p, w, e);
    forall r: Request { WorkMoves(p, w.guard, GuardStep(e), r); }
  }

  /** Only a request's own beginning and end change whether it is at work. */
  lemma WorkMoves(p: Params, s: State, step: Step, r: Request)
    ensures var s' := Do(p, s, step);
            (r in s'.requests && s'.requests[r].Working?) <==>
            || (Enabled(p, s, step) && step == Start(r))
            || (r in s.requests && s.requests[r].Working? && step != Keep(r) && step != Abandon(r))
    ensures r in s.requests ==> r in Do(p, s, step).requests && Do(p, s, step).requests[r].item == s.requests[r].item
  {
  }

  lemma OrderedCurrent(p: Params, w: World, e: Event)
    requires Inv(p, w.guard) && Ledger(w) && May(p, w, e) && e.NewOrder?
    ensures var w' := Apply(p, w, e);
            e.order in w'.written && Current(w', e.order) && w'.written.Keys == w.written.Keys + {e.order}
  {
    NothingYet(p, w, e.order);
    UntouchedWorkers(p, w, e);
  }

  lemma UntouchedWorkers(p: Params, w: World, e: Event)
    requires May(p, w, e) && e.NewOrder?
    ensures Apply(p, w, e).guard.requests == w.guard.requests && Apply(p, w, e).issued == w.issued
  {
  }

  lemma BegunCurrent(p: Params, w: World, e: Event)
    requires Inv(p, w.guard) && Ledger(w) && May(p, w, e) && e.Begun?
    ensures var w', order := Apply(p, w, e), w.guard.requests[e.req].item;
            order in w'.written && Current(w', order) && w'.written.Keys == w.written.Keys + {order}
  {
    var w', order := Apply(p, w, e), w.guard.requests[e.req].item;
    assert Owns(w.guard, e.req, order);
    OneAtWork(p, w, e.req, order);
    assert w'.issued == w.issued;
    assert w'.guard.requests[e.req] == Working(order, w.guard.requests[e.req].at);
  }

  lemma IssuedCurrent(p: Params, w: World, e: Event)
    requires Inv(p, w.guard) && Ledger(w) && May(p, w, e) && e.Issued?
    ensures var w', order := Apply(p, w, e), w.guard.requests[e.req].item;
            order in w'.written && Current(w', order) && w'.written.Keys == w.written.Keys + {order}
  {
    var w', order := Apply(p, w, e), w.guard.requests[e.req].item;
    assert Owns(w.guard, e.req, order);
    OneAtWork(p, w, e.req, order);
    assert w'.issued[|w.issued|].0 == order;
    assert w'.guard.requests == w.guard.requests[e.req := Kept(order, w.guard.requests[e.req].at)];
  }

  lemma RefusedCurrent(p: Params, w: World, e: Event)
    requires Inv(p, w.guard) && Ledger(w) && May(p, w, e) && e.IssueRefused?
    ensures var w', order := Apply(p, w, e), w.guard.requests[e.req].item;
            order in w'.written && Current(w', order) && w'.written.Keys == w.written.Keys + {order}
  {
    var w', order := Apply(p, w, e), w.guard.requests[e.req].item;
    assert Owns(w.guard, e.req, order);
    OneAtWork(p, w, e.req, order);
    assert w'.issued == w.issued;
    assert w'.guard.requests == w.guard.requests[e.req := Ended(order, w.guard.requests[e.req].at)];
  }

  lemma TouchedCurrent(p: Params, w: World, e: Event, order: Item)
    requires Inv(p, w.guard) && Ledger(w) && May(p, w, e) && Touched(w, e) == Some(order)
    ensures var w' := Apply(p, w, e);
            order in w'.written && Current(w', order) && w'.written.Keys == w.written.Keys + {order}
  {
    if e.NewOrder? {
      OrderedCurrent(p, w, e);
    } else if e.Begun? {
      BegunCurrent(p, w, e);
    } else if e.Issued? {
      IssuedCurrent(p, w, e);
    } else {
      RefusedCurrent(p, w, e);
    }
  }

  lemma UntouchedCurrent(p: Params, w: World, e: Event, order: Item)
    requires AllCurrent(w) && May(p, w, e) && Touched(w, e) != Some(order)
    ensures order in Apply(p, w, e).written <==> order in w.written
    ensures order in w.written ==> Current(Apply(p, w, e), order)
  {
    UntouchedStay(p, w, e, order);
    UntouchedWork(p, w, e, order);
  }

  /** What is written of is what there is: orders are made, and none is forgotten. */
  lemma WrittenAre(p: Params, w: World, e: Event)
    requires Inv(p, w.guard) && Ledger(w) && AllCurrent(w) && May(p, w, e)
    ensures Apply(p, w, e).written.Keys == Apply(p, w, e).guard.deadlines.Keys
  {
    Tracks(p, w, e);
    DeadlinesAfter(p, w.guard, GuardStep(e));
    if Touched(w, e).Some? {
      TouchedCurrent(p, w, e, Touched(w, e).value);
      TouchedDated(p, w, e);
    } else {
      forall order { UntouchedCurrent(p, w, e, order); }
    }
  }

  lemma TouchedDated(p: Params, w: World, e: Event)
    requires Inv(p, w.guard) && May(p, w, e) && Touched(w, e).Some?
    ensures e.NewOrder? || Touched(w, e).value in w.guard.deadlines
    ensures e.NewOrder? ==> GuardStep(e) == Create(e.order, e.expires) && Enabled(p, w.guard, GuardStep(e))
  {
    if !e.NewOrder? {
      assert InDate(w.guard, w.guard.requests[e.req]);
    }
  }

  /** In every state of every run under the two bounds, the last status written of an
      order is "valid" exactly if it has a certificate, "processing" exactly if a
      request is at work on it, and "ready" otherwise. */
  lemma {:induction false} LastIsCurrent(p: Params, events: seq<Event>)
    requires Guarded(p)
    ensures AllCurrent(After(p, events))
  {
    if events != [] {
      var w, e := After(p, events[..|events| - 1]), events[|events| - 1];
      LastIsCurrent(p, events[..|events| - 1]);
      AfterSound(p, events[..|events| - 1]);
      if May(p, w, e) {
        WrittenAre(p, w, e);
        forall order ensures order in Apply(p, w, e).written ==> Current(Apply(p, w, e), order) {
          if Touched(w, e) == Some(order) {
            TouchedCurrent(p, w, e, order);
          } else {
            UntouchedCurrent(p, w, e, order);
          }
        }
      }
    }
  }

  // ----- the bounds are exact ----------------------------------------------

  function Last(p: Params): int { p.lifetimeMs - 1 }

  /** When the first claim lapses, or the last moment to look, if that is later. */
  function Late(p: Params): int
  {
    Max(Last(p), Min(MAX_TTL_MS, p.lifetimeMs + SKEW_MS))
  }

  /** Node 0 finalizes at once; node 1, which still holds the first status it
      was sent, looks at the last moment and claims when the claim has lapsed. */
  function Act(p: Params, k: nat): Event
    requires p.lifetimeMs > 0 && k < 14
  {
    if k == 0 then NewOrder(0, "order", p.lifetimeMs)
    else if k == 1 then Look(0, 0, "order")
    else if k == 2 then AskClaim(0)
    else if k == 3 then ClaimAnswered(0)
    else if k == 4 then Begun(0)
    else if k == 5 then Issued(0)
    else if k == 6 then Deliver(1, "order", 0)
    else if k == 7 then Pass(Last(p))
    else if k == 8 then Look(1, 1, "order")
    else if k == 9 then AskClaim(1)
    else if k == 10 then Pass(Late(p) - Last(p))
    else if k == 11 then ClaimAnswered(1)
    else if k == 12 then Begun(1)
    else Issued(1)
  }

  function TwiceIssued(p: Params): seq<Event>
    requires p.lifetimeMs > 0
  {
    seq(14, k requires 0 <= k < 14 => Act(p, k))
  }

  /** The guard after each of those events. */
  function GuardScene(p: Params, k: nat): State
  {
    State(if k < 8 then 0 else if k < 11 then Last(p) else Late(p),
          if k == 0 then map[] else map["order" := p.lifetimeMs],
          if k < 4 then map[]
          else if k < 12 then map["order" := Claim(0, Min(MAX_TTL_MS, p.lifetimeMs + SKEW_MS))]
          else map["order" := Claim(1, Late(p) + SKEW_MS + 1)],
          if k < 2 then map[]
          else if k < 9 then map[0 := FirstPhase(p, k)]
          else map[0 := FirstPhase(p, k), 1 := SecondPhase(p, k)])
  }

  function FirstPhase(p: Params, k: nat): Phase
  {
    if k < 3 then Checked("order", 0)
    else if k < 4 then Asking("order", 0, p.lifetimeMs + SKEW_MS)
    else if k < 5 then Holding("order", 0)
    else if k < 6 then Working("order", 0) else Kept("order", 0)
  }

  function SecondPhase(p: Params, k: nat): Phase
  {
    if k < 10 then Checked("order", Last(p))
    else if k < 12 then Asking("order", Last(p), SKEW_MS + 1)
    else if k < 13 then Holding("order", Last(p))
    else if k < 14 then Working("order", Last(p)) else Kept("order", Last(p))
  }

  const LOG := [Ready, Processing, Valid, Processing, Valid]

  /** How many statuses have been written by then. */
  function Writes(k: nat): nat
  {
    if k == 0 then 0 else if k < 5 then 1 else if k < 6 then 2 else if k < 13 then 3 else if k < 14 then 4 else 5
  }

  function Scene(p: Params, k: nat): World
  {
    var zero: OrderStatus := if k < 5 then Ready else if k < 6 then Processing else Valid;
    var one: OrderStatus := if k < 13 then Ready else if k < 14 then Processing else Valid;
    World(GuardScene(p, k),
          if k < 2 then map[] else if k < 9 then map[0 := 0] else map[0 := 0, 1 := 1],
          if k == 0 then map[] else if k < 7 then map[(0, "order") := zero]
          else map[(0, "order") := zero, (1, "order") := one],
          if k == 0 then map[] else map["order" := LOG[..Writes(k)]],
          if k < 6 then [] else if k < 14 then [("order", 0)] else [("order", 0), ("order", 1)])
  }

  ghost predicate Follows(p: Params, k: nat)
    requires p.lifetimeMs > 0 && k < 14
  {
    && May(p, Scene(p, k), Act(p, k))
    && Apply(p, Scene(p, k), Act(p, k)) == Scene(p, k + 1)
  }

  lemma LogGrows(n: nat)
    requires n < 5
    ensures LOG[..n] + [LOG[n]] == LOG[..n + 1]
  {
  }

  lemma FirstOrder(p: Params)
    requires p.lifetimeMs > 0
    ensures Follows(p, 0)
  {
    LogGrows(0);
  }

  /** Node 0 looks and asks. */
  lemma FirstLooks(p: Params, k: nat)
    requires p.lifetimeMs > 0 && 1 <= k < 3
    ensures Follows(p, k)
  {
  }

  lemma FirstClaims(p: Params)
    requires p.lifetimeMs > 0 && p.gapMs > 0
    ensures Follows(p, 3)
  {
    assert Do(p, GuardScene(p, 3), Answer(0)) == GuardScene(p, 4);
  }

  lemma FirstBegins(p: Params)
    requires p.lifetimeMs > 0
    ensures Follows(p, 4)
  {
    LogGrows(1);
  }

  lemma FirstIssues(p: Params)
    requires p.lifetimeMs > 0
    ensures Follows(p, 5)
  {
    LogGrows(2);
  }

  /** Node 1 looks, and waits. */
  lemma MiddleScenes(p: Params, k: nat)
    requires p.lifetimeMs > 0 && 6 <= k < 11
    ensures Follows(p, k)
  {
  }

  /** The claim has lapsed, and node 1 is still in time. */
  lemma LateEnough(p: Params)
    requires p.lifetimeMs > 0 && p.gapMs > 0 && !Guarded(p)
    ensures Late(p) - Last(p) < p.gapMs
    ensures Min(MAX_TTL_MS, p.lifetimeMs + SKEW_MS) <= Late(p)
  {
  }

  lemma SecondClaim(p: Params)
    requires p.lifetimeMs > 0 && p.gapMs > 0 && !Guarded(p)
    ensures Do(p, GuardScene(p, 11), Answer(1)) == GuardScene(p, 12)
    ensures Enabled(p, GuardScene(p, 11), Answer(1))
  {
    LateEnough(p);
  }

  lemma SecondScene(p: Params)
    requires p.lifetimeMs > 0 && p.gapMs > 0 && !Guarded(p)
    ensures Follows(p, 11)
  {
    SecondClaim(p);
  }

  lemma SecondBegins(p: Params)
    requires p.lifetimeMs > 0
    ensures Follows(p, 12)
  {
    LogGrows(3);
  }

  lemma SecondIssues(p: Params)
    requires p.lifetimeMs > 0
    ensures Follows(p, 13)
  {
    LogGrows(4);
  }

  lemma {:induction false} ScenesFollow(p: Params, k: nat)
    requires p.lifetimeMs > 0 && p.gapMs > 0 && !Guarded(p) && k <= 14
    ensures After(p, TwiceIssued(p)[..k]) == Scene(p, k)
  {
    if k > 0 {
      ScenesFollow(p, k - 1);
      if k == 1 {
        FirstOrder(p);
      } else if k <= 3 {
        FirstLooks(p, k - 1);
      } else if k == 4 {
        FirstClaims(p);
      } else if k == 5 {
        FirstBegins(p);
      } else if k == 6 {
        FirstIssues(p);
      } else if k <= 11 {
        MiddleScenes(p, k - 1);
      } else if k == 12 {
        SecondScene(p);
      } else if k == 13 {
        SecondBegins(p);
      } else {
        SecondIssues(p);
      }
      assert TwiceIssued(p)[..k][..k - 1] == TwiceIssued(p)[..k - 1];
    }
  }

  /** At most one certificate an order in every run, exactly when a request's
      claim comes within 60,001 ms of its look at the order, and an order's
      lifetime leaves that much of the thirty days a claim can last. */
  lemma OneEachIffGuarded(p: Params)
    requires p.lifetimeMs > 0 && p.gapMs > 0
    ensures p.gapMs <= 60001 && p.lifetimeMs + p.gapMs <= 2592000001 <==> forall events :: OneEach(After(p, events))
  {
    if Guarded(p) {
      forall events ensures OneEach(After(p, events)) {
        AtMostOneCertificate(p, events);
      }
    } else {
      ScenesFollow(p, 14);
      assert TwiceIssued(p)[..14] == TwiceIssued(p);
      var w := Scene(p, 14);
      assert w.issued[0].0 == w.issued[1].0;
      assert !OneEach(After(p, TwiceIssued(p)));
    }
  }

  /** In the setting's own terms: `acme.orderLifetimeS` may be set to thirty
      days, and one minute less is what the claim covers. */
  lemma OrderLifetimeCovered(orderLifetimeS: nat)
    requires 60 <= orderLifetimeS <= 2592000
    ensures (forall events :: OneEach(After(Params(orderLifetimeS * 1000, 60000), events)))
       <==> orderLifetimeS <= 2591940
  {
    OneEachIffGuarded(Params(orderLifetimeS * 1000, SKEW_MS));
  }
}
