/** An atomic "once" with a lifetime, as `cluster_claims.js` promises it, and
    the pattern two ACME handlers build on it: look at a deadline, work across
    an `await`, then claim. Times are milliseconds of one clock. */
module OnceGuard {
  import opened Basics

  const MAX_TTL_MS := 30 * 24 * 60 * 60 * 1000
  const SKEW_MS := 60 * 1000

  type Item = string
  type Request = nat

  // ----- the claims table --------------------------------------------------

  datatype Claim = Claim(reservation: Request, expiresAt: int)

  type Table = map<Item, Claim>

  /** An unlapsed claim refuses every other. */
  predicate Claimed(claims: Table, item: Item, now: int)
  {
    item in claims && claims[item].expiresAt > now
  }

  function Take(claims: Table, item: Item, reservation: Request, now: int, ttlMs: int): Table
  {
    claims[item := Claim(reservation, now + Min(MAX_TTL_MS, Max(1000, ttlMs)))]
  }

  /** A release frees the caller's own claim and no other. */
  function Release(claims: Table, item: Item, reservation: Request): Table
  {
    if item in claims && claims[item].reservation == reservation then claims - {item} else claims
  }

  // ----- the machine -------------------------------------------------------

  /** How long an item may live, and how long a request may take between
      looking at the deadline and its claim reaching the table. */
  datatype Params = Params(lifetimeMs: nat, gapMs: nat)

  /** `Holding` has its claim in the table and has not gone on with it yet;
      `Working` has. */
  datatype Phase =
    | Checked(item: Item, at: int)
    | Asking(item: Item, at: int, ttlMs: int)
    | Holding(item: Item, at: int)
    | Working(item: Item, at: int)
    | Kept(item: Item, at: int)
    | Ended(item: Item, at: int)

  datatype State = State(now: int, deadlines: map<Item, int>, claims: Table, requests: map<Request, Phase>)

  const START := State(0, map[], map[], map[])

  datatype Step =
    | Tick(ms: nat)
    | Create(item: Item, deadline: int)
    | Check(req: Request, item: Item)
    | Ask(req: Request)
    | Answer(req: Request)
    | Start(req: Request)
    | Keep(req: Request)
    | Abandon(req: Request)
    | Free(req: Request)
    | Purge(item: Item)

  predicate Enabled(p: Params, s: State, step: Step)
  {
    match step
    case Tick(_) => true
    case Create(item, deadline) => item !in s.deadlines && deadline <= s.now + p.lifetimeMs
    case Check(req, item) => req !in s.requests && item in s.deadlines && s.now < s.deadlines[item]
    case Ask(req) => req in s.requests && s.requests[req].Checked? && s.requests[req].item in s.deadlines
    case Answer(req) => req in s.requests && s.requests[req].Asking? && s.now - s.requests[req].at < p.gapMs
    case Start(req) => req in s.requests && s.requests[req].Holding?
    case Keep(req) => req in s.requests && s.requests[req].Working?
    case Abandon(req) => req in s.requests && !s.requests[req].Kept?
    case Free(req) => req in s.requests && s.requests[req].Ended?
    case Purge(item) => item in s.claims && !Claimed(s.claims, item, s.now)
  }

  /** The lifetime a handler asks for: to the deadline and a minute past it. */
  function TtlFor(deadline: int, now: int): int
  {
    Max(SKEW_MS, deadline - now + SKEW_MS)
  }

  /** One step; a step that is not enabled changes nothing. */
  function Do(p: Params, s: State, step: Step): State
  {
    if !Enabled(p, s, step) then s
    else
      match step
      case Tick(ms) => s.(now := s.now + ms)
      case Create(item, deadline) => s.(deadlines := s.deadlines[item := deadline])
      case Check(req, item) => s.(requests := s.requests[req := Checked(item, s.now)])
      case Ask(req) =>
        var c := s.requests[req];
        s.(requests := s.requests[req := Asking(c.item, c.at, TtlFor(s.deadlines[c.item], s.now))])
      case Answer(req) =>
        var a := s.requests[req];
        if Claimed(s.claims, a.item, s.now) then s.(requests := s.requests[req := Ended(a.item, a.at)])
        else s.(claims := Take(s.claims, a.item, req, s.now, a.ttlMs),
                requests := s.requests[req := Holding(a.item, a.at)])
      case Start(req) =>
        s.(requests := s.requests[req := Working(s.requests[req].item, s.requests[req].at)])
      case Keep(req) =>
        s.(requests := s.requests[req := Kept(s.requests[req].item, s.requests[req].at)])
      case Abandon(req) =>
        s.(requests := s.requests[req := Ended(s.requests[req].item, s.requests[req].at)])
      case Free(req) => s.(claims := Release(s.claims, s.requests[req].item, req))
      case Purge(item) => s.(claims := s.claims - {item})
  }

  /** A deadline is set once, and time does not go back. */
  lemma DeadlinesAfter(p: Params, s: State, step: Step)
    ensures Do(p, s, step).deadlines ==
            if step.Create? && Enabled(p, s, step) then s.deadlines[step.item := step.deadline] else s.deadlines
    ensures s.now <= Do(p, s, step).now
  {
  }

  /** An unlapsed claim ends the request that asks; otherwise the claim is its own, for
      as long as it asked, a second at least and thirty days at most. */
  lemma Answered(p: Params, s: State, req: Request)
    requires Enabled(p, s, Answer(req))
    ensures var asked, s' := s.requests[req], Do(p, s, Answer(req));
            var lasts := if asked.ttlMs < 1000 then 1000
                         else if asked.ttlMs > 2592000000 then 2592000000 else asked.ttlMs;
            if asked.item in s.claims && s.claims[asked.item].expiresAt > s.now
            then s' == s.(requests := s.requests[req := Ended(asked.item, asked.at)])
            else s' == s.(requests := s.requests[req := Holding(asked.item, asked.at)],
                          claims := s.claims[asked.item := Claim(req, s.now + lasts)])
  {
  }

  /** It asks until a minute past the deadline, and never for less than a minute. */
  lemma AskedFor(p: Params, s: State, req: Request)
    requires Enabled(p, s, Ask(req))
    ensures var c := s.requests[req];
            var left := s.deadlines[c.item] - s.now;
            Do(p, s, Ask(req)) ==
            s.(requests := s.requests[req := Asking(c.item, c.at, if left < 0 then 60000 else left + 60000)])
  {
  }

  /** Clearing a lapsed claim changes no answer, and a release frees the request's own
      claim and nothing else. */
  lemma ClearingIsSilent(p: Params, s: State, item: Item, other: Item)
    ensures Claimed(Do(p, s, Purge(item)).claims, other, s.now) <==> Claimed(s.claims, other, s.now)
    ensures item in s.claims && s.claims[item].expiresAt <= s.now ==> item !in Do(p, s, Purge(item)).claims
  {
  }

  lemma FreedIsItsOwn(p: Params, s: State, req: Request)
    requires req in s.requests && s.requests[req].Ended?
    ensures var item, after := s.requests[req].item, Do(p, s, Free(req)).claims;
            && (item in s.claims && s.claims[item].reservation == req ==> after == s.claims - {item})
            && (item !in s.claims || s.claims[item].reservation != req ==> after == s.claims)
  {
  }

  // ----- at most one holder -------------------------------------------------

  predicate Owns(s: State, req: Request, item: Item)
  {
    && req in s.requests && s.requests[req].item == item
    && (s.requests[req].Holding? || s.requests[req].Working? || s.requests[req].Kept?)
  }

  ghost predicate Exclusive(s: State)
  {
    forall item, a, b :: Owns(s, a, item) && Owns(s, b, item) ==> a == b
  }

  /** The two bounds under which no claim lapses within a request's reach. */
  predicate Guarded(p: Params)
  {
    p.gapMs <= SKEW_MS + 1 && p.lifetimeMs + p.gapMs <= MAX_TTL_MS + 1
  }

  /** No request that looked before the deadline can still claim at this time. */
  function OutOfReach(p: Params, deadline: int): int
  {
    deadline + p.gapMs - 1
  }

  ghost predicate ItemsDated(p: Params, s: State)
  {
    forall item :: item in s.deadlines ==> s.deadlines[item] <= s.now + p.lifetimeMs
  }

  /** A request looked at its item in time, and asks for long enough. */
  predicate InDate(s: State, phase: Phase)
  {
    && phase.item in s.deadlines && phase.at < s.deadlines[phase.item] && phase.at <= s.now
    && (phase.Asking? ==> phase.ttlMs >= TtlFor(s.deadlines[phase.item], s.now))
  }

  ghost predicate PhasesDated(s: State)
  {
    forall r :: r in s.requests ==> InDate(s, s.requests[r])
  }

  ghost predicate Dated(p: Params, s: State)
  {
    ItemsDated(p, s) && PhasesDated(s)
  }

  /** Whoever owns an item is behind its claim, or its claim is no longer
      needed because nobody can claim the item any more. */
  ghost predicate Covered(p: Params, s: State)
  {
    forall r, item :: Owns(s, r, item) ==>
      && item in s.deadlines
      && (|| (item in s.claims && s.claims[item].reservation == r
              && s.claims[item].expiresAt >= OutOfReach(p, s.deadlines[item]))
          || s.now >= OutOfReach(p, s.deadlines[item]))
  }

  ghost predicate Inv(p: Params, s: State)
  {
    Dated(p, s) && Covered(p, s) && Exclusive(s)
  }

  lemma ClaimOutlives(p: Params, deadline: int, now: int, ttlMs: int)
    requires Guarded(p)
    requires deadline <= now + p.lifetimeMs
    requires ttlMs >= TtlFor(deadline, now)
    ensures now + Min(MAX_TTL_MS, Max(1000, ttlMs)) >= OutOfReach(p, deadline)
  {
  }

  lemma AnswerKeeps(p: Params, s: State, req: Request)
    requires Guarded(p) && Inv(p, s) && Enabled(p, s, Answer(req))
    ensures Inv(p, Do(p, s, Answer(req)))
  {
    var a, s' := s.requests[req], Do(p, s, Answer(req));
    if !Claimed(s.claims, a.item, s.now) {
      ClaimOutlives(p, s.deadlines[a.item], s.now, a.ttlMs);
      assert s.now < OutOfReach(p, s.deadlines[a.item]);
      forall r ensures !Owns(s, r, a.item) {}
      forall r, item | Owns(s', r, item) && r != req
        ensures Owns(s, r, item) && item != a.item
      {
        assert Owns(s, r, item);
      }
    } else {
      OwnersShrink(p, s, s');
    }
  }

  /** Steps that make no new owner, and drop only lapsed claims. */
  lemma OwnersShrink(p: Params, s: State, s': State)
    requires Covered(p, s) && Exclusive(s)
    requires forall r, item :: Owns(s', r, item) ==> Owns(s, r, item)
    requires s.now <= s'.now
    requires forall item :: item in s.deadlines ==> item in s'.deadlines && s'.deadlines[item] == s.deadlines[item]
    requires forall item :: item in s.claims ==>
      if item in s'.claims then s'.claims[item] == s.claims[item] else s.claims[item].expiresAt <= s'.now
    ensures Covered(p, s') && Exclusive(s')
  {
  }

  /** A request that has ended may free its claim late: no owner's is freed. */
  lemma FreeKeeps(p: Params, s: State, req: Request)
    requires Inv(p, s) && Enabled(p, s, Free(req))
    ensures Covered(p, Do(p, s, Free(req))) && Exclusive(Do(p, s, Free(req)))
  {
    var s' := Do(p, s, Free(req));
    forall r, item | Owns(s', r, item) ensures Owns(s, r, item) && r != req {
      assert Owns(s, r, item);
    }
  }

  lemma InDateStays(s: State, s': State, phase: Phase)
    requires InDate(s, phase)
    requires s.now <= s'.now
    requires phase.item in s'.deadlines && s'.deadlines[phase.item] == s.deadlines[phase.item]
    ensures InDate(s', phase)
  {
  }

  lemma PhasesDatedKept(p: Params, s: State, step: Step)
    requires PhasesDated(s)
    ensures PhasesDated(Do(p, s, step))
  {
    var s' := Do(p, s, step);
    DeadlinesAfter(p, s, step);
    forall r | r in s'.requests ensures InDate(s', s'.requests[r]) {
      if r in s.requests && s'.requests[r] == s.requests[r] {
        InDateStays(s, s', s.requests[r]);
      } else if r in s.requests {
        assert InDate(s, s.requests[r]);
      }
    }
  }

  lemma DatedKept(p: Params, s: State, step: Step)
    requires Dated(p, s)
    ensures Dated(p, Do(p, s, step))
  {
    PhasesDatedKept(p, s, step);
    DeadlinesAfter(p, s, step);
  }

  lemma DoKeeps(p: Params, s: State, step: Step)
    requires Guarded(p) && Inv(p, s)
    ensures Inv(p, Do(p, s, step))
  {
    DatedKept(p, s, step);
    if Enabled(p, s, step) {
      match step
      case Answer(req) => AnswerKeeps(p, s, req);
      case Free(req) => FreeKeeps(p, s, req);
      case _ =>
        forall r, item | Owns(Do(p, s, step), r, item) ensures Owns(s, r, item) {}
        OwnersShrink(p, s, Do(p, s, step));
    }
  }

  /** A kept item stays kept, and only `Keep` makes one kept. */
  lemma KeptStays(p: Params, s: State, step: Step, req: Request)
    ensures var s' := Do(p, s, step);
            (req in s'.requests && s'.requests[req].Kept?) <==>
            (req in s.requests && s.requests[req].Kept?) || (step == Keep(req) && Enabled(p, s, step))
    ensures req in s.requests ==>
              req in Do(p, s, step).requests && Do(p, s, step).requests[req].item == s.requests[req].item
  {
  }

  /** What a request is after a step that is not its first. */
  lemma RequestBefore(p: Params, s: State, step: Step, req: Request)
    requires req in Do(p, s, step).requests
    ensures if req in s.requests
            then && Do(p, s, step).requests[req].item == s.requests[req].item
                 && Do(p, s, step).requests[req].at == s.requests[req].at
            else step.Check? && step.req == req && Enabled(p, s, step)
                 && Do(p, s, step).requests[req] == Checked(step.item, s.now)
  {
  }
}
