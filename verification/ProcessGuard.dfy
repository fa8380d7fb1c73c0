/** The same "once" in one process, where a request sees at once that another is
    at work on an item and does not look further. How long an item lives then
    does not matter: the gap alone is bounded. */
module ProcessGuard {
  import opened Basics
  import opened OnceGuard

  predicate Prompt(p: Params)
  {
    p.gapMs <= SKEW_MS + 1
  }

  /** A request that has an item or may still go on with it. */
  predicate Has(p: Params, s: State, r: Request, item: Item)
  {
    && r in s.requests && s.requests[r].item == item
    && (|| (s.requests[r].Holding? && s.now - s.requests[r].at < p.gapMs)
        || s.requests[r].Working? || s.requests[r].Kept?)
  }

  predicate Waits(s: State, r: Request, item: Item)
  {
    r in s.requests && s.requests[r].item == item && (s.requests[r].Checked? || s.requests[r].Asking?)
  }

  /** A request's own claim is in the table until a time. */
  predicate Behind(s: State, r: Request, item: Item, until: int)
  {
    item in s.claims && s.claims[item].reservation == r && s.claims[item].expiresAt >= until
  }

  ghost predicate Alone(p: Params, s: State)
  {
    forall a, b, item :: Has(p, s, a, item) && Has(p, s, b, item) ==> a == b
  }

  /** Nobody who waits for an item somebody has can still be granted it. */
  ghost predicate Shielded(p: Params, s: State)
  {
    forall r, waiting, item :: Has(p, s, r, item) && Waits(s, waiting, item) ==>
      Behind(s, r, item, s.requests[waiting].at + p.gapMs) || s.now >= s.requests[waiting].at + p.gapMs
  }

  /** A claim in hand outlasts the item's deadline, or thirty days. */
  function Least(s: State, phase: Phase): int
    requires phase.item in s.deadlines
  {
    Min(phase.at + MAX_TTL_MS, s.deadlines[phase.item] + SKEW_MS)
  }

  ghost predicate Backed(p: Params, s: State)
  {
    forall r, item :: Has(p, s, r, item) && s.requests[r].Holding? ==>
      item in s.deadlines && Behind(s, r, item, Least(s, s.requests[r]))
  }

  ghost predicate LocalInv(p: Params, s: State)
  {
    PhasesDated(s) && Alone(p, s) && Shielded(p, s) && Backed(p, s)
  }

  /** What one process sees to: a look finds nobody at work, and a request goes on
      with its claim within the gap. */
  ghost predicate Orderly(p: Params, s: State, step: Step)
  {
    Enabled(p, s, step) ==>
      && (step.Check? ==> forall r :: r in s.requests && s.requests[r].item == step.item ==>
            !s.requests[r].Working? && !s.requests[r].Kept?)
      && (step.Start? ==> s.now - s.requests[step.req].at < p.gapMs)
  }

  /** A claim in hand is not lapsed, and a look made now is covered by it. */
  lemma StillBehind(p: Params, s: State, r: Request)
    requires Prompt(p) && PhasesDated(s) && Backed(p, s)
    requires r in s.requests && s.requests[r].Holding? && Has(p, s, r, s.requests[r].item)
    ensures var item := s.requests[r].item;
            && item in s.claims && s.claims[item].reservation == r && s.claims[item].expiresAt > s.now
            && (s.now < s.deadlines[item] ==> s.claims[item].expiresAt >= s.now + p.gapMs)
  {
    assert InDate(s, s.requests[r]);
  }

  lemma LookKeeps(p: Params, s: State, step: Step)
    requires Prompt(p) && LocalInv(p, s) && Orderly(p, s, step) && Enabled(p, s, step) && step.Check?
    ensures Alone(p, Do(p, s, step)) && Shielded(p, Do(p, s, step)) && Backed(p, Do(p, s, step))
  {
    var s' := Do(p, s, step);
    forall r, item | Has(p, s', r, item) ensures Has(p, s, r, item) && s'.requests[r] == s.requests[r] {}
    forall r, waiting, item | Has(p, s', r, item) && Waits(s', waiting, item)
      ensures Behind(s', r, item, s'.requests[waiting].at + p.gapMs) || s'.now >= s'.requests[waiting].at + p.gapMs
    {
      if waiting == step.req {
        StillBehind(p, s, r);
      } else {
        assert Waits(s, waiting, item);
      }
    }
  }

  lemma NobodyHas(p: Params, s: State, req: Request)
    requires LocalInv(p, s) && Enabled(p, s, Answer(req)) && !Claimed(s.claims, s.requests[req].item, s.now)
    ensures forall r :: !Has(p, s, r, s.requests[req].item)
  {
    assert Waits(s, req, s.requests[req].item);
  }

  lemma GrantKeeps(p: Params, s: State, req: Request)
    requires Prompt(p) && LocalInv(p, s) && Enabled(p, s, Answer(req))
    requires !Claimed(s.claims, s.requests[req].item, s.now)
    ensures var s' := Do(p, s, Answer(req)); Alone(p, s') && Shielded(p, s') && Backed(p, s')
  {
    var a, s' := s.requests[req], Do(p, s, Answer(req));
    NobodyHas(p, s, req);
    assert InDate(s, a);
    forall r, item | Has(p, s', r, item) && r != req
      ensures Has(p, s, r, item) && item != a.item
    {
      assert s'.requests[r] == s.requests[r] && Has(p, s, r, item);
    }
    forall waiting | Waits(s', waiting, a.item)
      ensures Behind(s', req, a.item, s'.requests[waiting].at + p.gapMs)
    {
      assert InDate(s, s.requests[waiting]);
    }
  }

  /** Steps after which nobody has or waits for an item who did not, nobody holds
      anew, and only lapsed claims and those of ended requests are gone. */
  ghost predicate Shrinks(p: Params, s: State, s': State)
  {
    && s.now <= s'.now
    && (forall item :: item in s.deadlines ==> item in s'.deadlines && s'.deadlines[item] == s.deadlines[item])
    && (forall r, item :: Has(p, s', r, item) ==>
          && Has(p, s, r, item) && s'.requests[r].at == s.requests[r].at
          && (s'.requests[r].Holding? ==> s.requests[r].Holding?))
    && (forall r, item :: Waits(s', r, item) ==> Waits(s, r, item) && s'.requests[r].at == s.requests[r].at)
    && (forall item :: item in s.claims && !(item in s'.claims && s'.claims[item] == s.claims[item]) ==>
          s.claims[item].expiresAt <= s'.now || !Has(p, s, s.claims[item].reservation, item))
  }

  lemma ShrinkKeeps(p: Params, s: State, s': State)
    requires Prompt(p) && LocalInv(p, s) && Shrinks(p, s, s')
    ensures Alone(p, s') && Shielded(p, s') && Backed(p, s')
  {
    forall r, waiting, item | Has(p, s', r, item) && Waits(s', waiting, item)
      ensures Behind(s', r, item, s'.requests[waiting].at + p.gapMs) || s'.now >= s'.requests[waiting].at + p.gapMs
    {
      assert Has(p, s, r, item) && Waits(s, waiting, item);
    }
    forall r, item | Has(p, s', r, item) && s'.requests[r].Holding?
      ensures item in s'.deadlines && Behind(s', r, item, Least(s', s'.requests[r]))
    {
      assert Has(p, s, r, item) && InDate(s, s.requests[r]);
      assert Least(s, s.requests[r]) > s'.now;
    }
  }

  lemma OthersShrink(p: Params, s: State, step: Step)
    requires LocalInv(p, s) && Orderly(p, s, step)
    requires !step.Check?
    requires !(step.Answer? && Enabled(p, s, step) && !Claimed(s.claims, s.requests[step.req].item, s.now))
    ensures Shrinks(p, s, Do(p, s, step))
  {
  }

  /** Every orderly step keeps at most one request that has an item. */
  lemma LocalStep(p: Params, s: State, step: Step)
    requires Prompt(p) && LocalInv(p, s) && Orderly(p, s, step)
    ensures LocalInv(p, Do(p, s, step))
  {
    PhasesDatedKept(p, s, step);
    if Enabled(p, s, step) {
      if step.Check? {
        LookKeeps(p, s, step);
      } else if step.Answer? && !Claimed(s.claims, s.requests[step.req].item, s.now) {
        GrantKeeps(p, s, step.req);
      } else {
        OthersShrink(p, s, step);
        ShrinkKeeps(p, s, Do(p, s, step));
      }
    }
  }
}
