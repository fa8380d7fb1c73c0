/** Every function of the register reads whichever realm's directory is bound.
    A call that names a realm binds it for the call and puts back what was bound,
    on the way out of an exception as well. */
module RealmBinding {
  import opened Wrappers
  import Text

  type Groups = map<string, seq<string>>

  /** What a call does, as far as the binding goes: it reads and writes groups of
      the bound realm, may throw, and may name a realm for a further call. */
  datatype Call =
    | Done
    | Throw
    | Write(group: string, members: seq<string>)
    | Ask(asked: string, yes: Call, no: Call)
    | Then(first: Call, next: Call)
    | InRealm(named: string, body: Call)

  type Realms = map<string, Groups>

  /** The realm bound for a call that names one; an unknown realm binds nothing,
      which every function answers as no directory at all. */
  function View<T>(realms: map<string, T>, bound: Option<string>, named: string): Option<string>
  {
    var id := Text.Trim(named);
    if id == "" then bound else if id in realms then Some(id) else None
  }

  /** A blank name leaves what is bound, a known one binds its realm, white space
      around it or not, and an unknown one binds nothing. */
  lemma ViewIs<T>(realms: map<string, T>, bound: Option<string>, named: string)
    ensures Text.Trim(named) == "" ==> View(realms, bound, named) == bound
    ensures Text.Trim(named) != "" && Text.Trim(named) in realms ==>
              View(realms, bound, named) == Some(Text.Trim(named))
    ensures Text.Trim(named) != "" && Text.Trim(named) !in realms ==> View(realms, bound, named).None?
  {
  }

  predicate Has(realms: Realms, bound: Option<string>, group: string)
  {
    bound.Some? && bound.value in realms && group in realms[bound.value]
  }

  function Put(realms: Realms, bound: Option<string>, group: string, members: seq<string>): Realms
  {
    if bound.Some? && bound.value in realms
    then realms[bound.value := realms[bound.value][group := members]]
    else realms
  }

  /** The meaning of a call in a realm: no binding is ever changed, each call is
      handed its own. */
  function Eval(realms: Realms, bound: Option<string>, call: Call): (result: (Realms, bool))
    ensures result.0.Keys == realms.Keys
    decreases call
  {
    match call
    case Done => (realms, false)
    case Throw => (realms, true)
    case Write(group, members) => (Put(realms, bound, group, members), false)
    case Ask(asked, yes, no) => if Has(realms, bound, asked) then Eval(realms, bound, yes) else Eval(realms, bound, no)
    case Then(first, next) =>
      var (mid, threw) := Eval(realms, bound, first);
      if threw then (mid, true) else Eval(mid, bound, next)
    case InRealm(named, body) => Eval(realms, View(realms, bound, named), body)
  }

  /** A write lands in the bound realm alone, and nowhere without one. */
  lemma WriteLands(realms: Realms, bound: Option<string>, group: string, members: seq<string>, id: string)
    requires id in realms
    ensures var after := Eval(realms, bound, Write(group, members)).0;
            && id in after && !Eval(realms, bound, Write(group, members)).1
            && after[id] == if bound == Some(id) then realms[id][group := members] else realms[id]
  {
  }

  /** A question is answered by the bound realm, and no realm has no groups. */
  lemma AskedThere(realms: Realms, bound: Option<string>, asked: string, yes: Call, no: Call)
    ensures Eval(realms, bound, Ask(asked, yes, no)) ==
            if exists id :: id in realms && bound == Some(id) && asked in realms[id] then Eval(realms, bound, yes)
            else Eval(realms, bound, no)
  {
  }

  /** A call that throws stops what was to follow, and undoes nothing. */
  lemma ThrownStops(realms: Realms, bound: Option<string>, first: Call, next: Call)
    ensures Eval(realms, bound, Throw) == (realms, true) && Eval(realms, bound, Done) == (realms, false)
    ensures Eval(realms, bound, first).1 ==>
              Eval(realms, bound, Then(first, next)) == Eval(realms, bound, first)
    ensures !Eval(realms, bound, first).1 ==>
              Eval(realms, bound, Then(first, next)) == Eval(Eval(realms, bound, first).0, bound, next)
  {
  }

  class Register {
    var realms: Realms
    var directory: Option<string>

    constructor (realms: Realms, default: string)
      ensures this.realms == realms && directory == Some(default)
    {
      this.realms := realms;
      directory := Some(default);
    }

    /** The one variable swapped and put back is the meaning above, however calls
        nest and whether or not they throw. */
    method Run(call: Call) returns (threw: bool)
      modifies this
      ensures (realms, threw) == Eval(old(realms), old(directory), call)
      ensures directory == old(directory)
      decreases call, 0
    {
      match call
      case Done => threw := false;
      case Throw => threw := true;
      case Write(group, members) =>
        realms := Put(realms, directory, group, members);
        threw := false;
      case Ask(asked, yes, no) =>
        if Has(realms, directory, asked) {
          threw := Run(yes);
        } else {
          threw := Run(no);
        }
      case Then(first, next) =>
        threw := Run(first);
        if !threw {
          threw := Run(next);
        }
      case InRealm(named, body) =>
        threw := InRosterRealm(named, body);
    }

    method InRosterRealm(named: string, body: Call) returns (threw: bool)
      modifies this
      ensures (realms, threw) == Eval(old(realms), View(old(realms), old(directory), named), body)
      ensures directory == old(directory)
      decreases body, 1
    {
      if Text.Trim(named) == "" {
        threw := Run(body);
        return;
      }
      var previous := directory;
      directory := View(realms, directory, named);
      threw := Run(body);
      directory := previous;
    }
  }

  /** The realms a call can reach: the bound one, where it acts in it, and those
      it names for what it does inside. */
  function Reach(ids: set<string>, bound: Option<string>, call: Call): set<string>
    decreases call
  {
    match call
    case Done => {}
    case Throw => {}
    case Write(_, _) => Bound(ids, bound)
    case Ask(_, yes, no) => Bound(ids, bound) + Reach(ids, bound, yes) + Reach(ids, bound, no)
    case Then(first, next) => Reach(ids, bound, first) + Reach(ids, bound, next)
    case InRealm(named, body) =>
      var id := Text.Trim(named);
      Reach(ids, if id == "" then bound else if id in ids then Some(id) else None, body)
  }

  function Bound(ids: set<string>, bound: Option<string>): set<string>
  {
    if bound.Some? && bound.value in ids then {bound.value} else {}
  }

  /** A call writes in no realm it cannot reach. */
  lemma {:induction false} WritesOnlyInReach(realms: Realms, bound: Option<string>, call: Call, id: string)
    requires id in realms && id !in Reach(realms.Keys, bound, call)
    ensures Eval(realms, bound, call).0[id] == realms[id]
    decreases call
  {
    match call
    case Done =>
    case Throw =>
    case Write(_, _) =>
    case Ask(asked, yes, no) =>
      if Has(realms, bound, asked) {
        WritesOnlyInReach(realms, bound, yes, id);
      } else {
        WritesOnlyInReach(realms, bound, no, id);
      }
    case Then(first, next) =>
      WritesOnlyInReach(realms, bound, first, id);
      WritesOnlyInReach(Eval(realms, bound, first).0, bound, next, id);
    case InRealm(named, body) =>
      WritesOnlyInReach(realms, View(realms, bound, named), body, id);
  }

  predicate AgreeOn(one: Realms, other: Realms, ids: set<string>)
  {
    one.Keys == other.Keys && forall id :: id in ids && id in one ==> one[id] == other[id]
  }

  /** And it reads in none either: what the realms out of its reach hold makes no
      difference to what it does or whether it throws. */
  lemma {:induction false} ReadsOnlyInReach(one: Realms, other: Realms, bound: Option<string>, call: Call,
                                            ids: set<string>)
    requires AgreeOn(one, other, ids) && Reach(one.Keys, bound, call) <= ids
    ensures Eval(one, bound, call).1 == Eval(other, bound, call).1
    ensures AgreeOn(Eval(one, bound, call).0, Eval(other, bound, call).0, ids)
    decreases call
  {
    match call
    case Done =>
    case Throw =>
    case Write(_, _) =>
    case Ask(asked, yes, no) =>
      assert Has(one, bound, asked) == Has(other, bound, asked) by {
        if bound.Some? && bound.value in one {
          assert bound.value in Bound(one.Keys, bound);
        }
      }
      ReadsOnlyInReach(one, other, bound, yes, ids);
      ReadsOnlyInReach(one, other, bound, no, ids);
    case Then(first, next) =>
      ReadsOnlyInReach(one, other, bound, first, ids);
      ReadsOnlyInReach(Eval(one, bound, first).0, Eval(other, bound, first).0, bound, next, ids);
    case InRealm(named, body) =>
      ReadsOnlyInReach(one, other, View(one, bound, named), body, ids);
  }

  /** A call that names a known realm does the same whatever was bound before, and
      nothing outside that realm unless it names another inside. */
  predicate NamesNone(call: Call)
  {
    match call
    case Done => true
    case Throw => true
    case Write(_, _) => true
    case Ask(_, yes, no) => NamesNone(yes) && NamesNone(no)
    case Then(first, next) => NamesNone(first) && NamesNone(next)
    case InRealm(named, body) => Text.Trim(named) == "" && NamesNone(body)
  }

  lemma {:induction false} ReachesTheBound(ids: set<string>, bound: Option<string>, call: Call)
    requires NamesNone(call)
    ensures Reach(ids, bound, call) <= Bound(ids, bound)
  {
    match call
    case Done =>
    case Throw =>
    case Write(_, _) =>
    case Ask(_, yes, no) =>
      ReachesTheBound(ids, bound, yes);
      ReachesTheBound(ids, bound, no);
    case Then(first, next) =>
      ReachesTheBound(ids, bound, first);
      ReachesTheBound(ids, bound, next);
    case InRealm(_, body) =>
      ReachesTheBound(ids, bound, body);
  }

  lemma OneRealmAlone(realms: Realms, bound: Option<string>, named: string, body: Call, id: string)
    requires NamesNone(body) && Text.Trim(named) != "" && id in realms && id != Text.Trim(named)
    ensures Eval(realms, bound, InRealm(named, body)).0[id] == realms[id]
    ensures Eval(realms, bound, InRealm(named, body)) == Eval(realms, None, InRealm(named, body))
  {
    ReachesTheBound(realms.Keys, View(realms, bound, named), body);
    WritesOnlyInReach(realms, View(realms, bound, named), body, id);
  }
}
