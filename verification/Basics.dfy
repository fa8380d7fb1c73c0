/** Small things several modules need. */
module Basics {

  function Min(a: int, b: int): int { if b < a then b else a }

  function Max(a: int, b: int): int { if a < b then b else a }

  /** `slice(from, to)`, for bounds that are not negative. */
  function Slice<T>(s: seq<T>, from: nat, to: nat): seq<T>
    requires from <= to
  {
    if from >= |s| then [] else s[from..Min(to, |s|)]
  }

  function Power(base: nat, n: nat): (p: nat)
    requires base > 0
    ensures p > 0
  {
    if n == 0 then 1 else base * Power(base, n - 1)
  }

  lemma Associative<T>(a: seq<T>, b: seq<T>, c: seq<T>)
    ensures (a + b) + c == a + (b + c)
  {
  }
}
