/** The bounded history of spent Replay-Nonces a realm keeps in one process. */
module NonceHistory {

  /** The nonces spent, each with its expiry in seconds. */
  type History = map<string, int>

  /** The entries a check at this second would still let through. */
  function Live(h: History, nowS: int): History
  {
    map id | id in h && h[id] > nowS :: h[id]
  }

  /** `makeRoom` under the policy "refuse": at the bound the expired go, and
      there is room if that took the history under it. */
  function Roomier(h: History, limit: int, nowS: int): History
  {
    if |h| >= limit then Live(h, nowS) else h
  }

  predicate HasRoom(h: History, limit: int)
  {
    limit <= 0 || |h| < limit
  }

  /** The history after an attempt to spend, and whether it was spent now. */
  function Spend(h: History, id: string, expiresS: int, nowS: int, limit: int): (History, bool)
  {
    if id in h then (h, false)
    else
      var kept := Roomier(h, limit, nowS);
      if HasRoom(kept, limit) then (kept[id := expiresS], true) else (kept, false)
  }

  lemma LiveIsSmaller(h: History, nowS: int)
    ensures |Live(h, nowS)| <= |h|
  {
    assert Live(h, nowS).Keys <= h.Keys;
    SubsetSize(Live(h, nowS).Keys, h.Keys);
  }

  lemma {:induction false} SubsetSize<T>(a: set<T>, b: set<T>)
    requires a <= b
    ensures |a| <= |b|
  {
    if a != {} {
      var x :| x in a;
      SubsetSize(a - {x}, b - {x});
    }
  }

  /** Nothing a check would still let through is forgotten, no expired spend
      comes back, a spend is remembered, and it is refused from then on. */
  lemma SpendRemembers(h: History, id: string, expiresS: int, nowS: int, limit: int)
    ensures var (h', spent) := Spend(h, id, expiresS, nowS, limit);
            && (forall k :: k in h && h[k] > nowS ==> k in h' && h'[k] == h[k])
            && (forall k :: k in h' && k != id ==> k in h && h'[k] == h[k])
            && (spent ==> id !in h && id in h' && h'[id] == expiresS)
            && (id in h' ==> forall e, t, l :: !Spend(h', id, e, t, l).1)
  {
  }

  /** A nonce is spent exactly when it is not in the history and, where there is a
      bound, the spends a check would still let through are fewer than it. */
  lemma SpentIff(h: History, id: string, expiresS: int, nowS: int, limit: int)
    ensures Spend(h, id, expiresS, nowS, limit).1 <==>
            id !in h && (limit <= 0 || |set k | k in h && h[k] > nowS| < limit)
  {
    var unexpired := set k | k in h && h[k] > nowS;
    assert Live(h, nowS).Keys == unexpired;
    assert unexpired <= h.Keys;
    SubsetSize(unexpired, h.Keys);
    assert |h| == |h.Keys| && |Live(h, nowS)| == |Live(h, nowS).Keys|;
  }

  /** Below the bound nothing is dropped, and at it exactly the expired. */
  lemma SpendDrops(h: History, id: string, expiresS: int, nowS: int, limit: int)
    ensures var h' := Spend(h, id, expiresS, nowS, limit).0;
            && (id in h ==> h' == h)
            && (id !in h && |h| < limit ==> h' == h[id := expiresS])
            && (id !in h && |h| >= limit ==> forall k :: k in h ==> (k in h' <==> h[k] > nowS))
  {
  }

  /** The history never passes its bound by a spend. */
  lemma SpendBounded(h: History, id: string, expiresS: int, nowS: int, limit: int)
    requires limit > 0
    ensures |Spend(h, id, expiresS, nowS, limit).0| <= if |h| <= limit then limit else |h|
  {
    LiveIsSmaller(h, nowS);
  }

  class SpentNonces {
    var used: History

    constructor ()
      ensures used == map[]
    {
      used := map[];
    }

    method FindStale(nowS: int) returns (stale: set<string>)
      ensures stale == set id | id in used && used[id] <= nowS
    {
      stale := {};
      var unseen := used.Keys;
      while unseen != {}
        invariant unseen <= used.Keys
        invariant forall id :: id in stale <==> id in used && id !in unseen && used[id] <= nowS
        decreases |unseen|
      {
        var id :| id in unseen;
        if used[id] <= nowS {
          stale := stale + {id};
        }
        unseen := unseen - {id};
      }
    }

    method DropExpired(nowS: int)
      modifies this
      ensures used == Live(old(used), nowS)
      ensures forall id :: id in used <==> id in old(used) && old(used)[id] > nowS
    {
      var stale := FindStale(nowS);
      ghost var all := stale;
      while stale != {}
        invariant stale <= all
        invariant used == map id | id in old(used) && id !in all - stale :: old(used)[id]
        decreases |stale|
      {
        var id :| id in stale;
        used := used - {id};
        stale := stale - {id};
      }
    }

    method MakeRoom(limit: int, nowS: int) returns (ok: bool)
      modifies this
      ensures used == Roomier(old(used), limit, nowS)
      ensures ok == HasRoom(used, limit)
      ensures |old(used)| < limit ==> ok && used == old(used)
      ensures |old(used)| >= limit ==> forall id :: id in used <==> id in old(used) && old(used)[id] > nowS
      ensures ok <==> limit <= 0 || |used| < limit
    {
      if |used| >= limit {
        DropExpired(nowS);
      }
      ok := limit <= 0 || |used| < limit;
    }

    method SpendNonce(id: string, expiresS: int, nowMs: nat, limit: int) returns (spent: bool)
      modifies this
      ensures (used, spent) == Spend(old(used), id, expiresS, nowMs / 1000, limit)
      ensures spent <==>
              && id !in old(used)
              && (limit <= 0 || |set k | k in old(used) && old(used)[k] > nowMs / 1000| < limit)
      ensures spent ==> id in used && used[id] == expiresS
    {
      SpentIff(used, id, expiresS, nowMs / 1000, limit);
      if id in used {
        return false;
      }
      var ok := MakeRoom(limit, nowMs / 1000);
      if !ok {
        return false;
      }
      used := used[id := expiresS];
      spent := true;
    }
  }
}
