/** Section 7.4 of RFC 8555: the CSR names exactly the order's identifiers. */
module CsrNames {
  import opened Wrappers
  import Text

  datatype Kind = Dns | Ip | Email | PermanentIdentifier

  datatype Identifier = Identifier(kind: Kind, value: string)

  datatype Entry = Entry(kind: string, id: string)

  /** `parseCsr`'s answer; an absent common name is the empty string. */
  datatype Csr = Csr(dns: seq<string>, ips: seq<string>, emails: seq<string>, uris: seq<string>,
                     upns: seq<string>, commonName: string)

  /** What of an order its CSR is compared with. */
  datatype OrderNames = OrderNames(identifiers: seq<Identifier>, profile: string)

  /** What is asked of other modules: the three syntaxes, and which entry a URI
      names. */
  datatype Syntax = Syntax(dns: string -> bool, ip: string -> bool, email: string -> bool,
                           entryFromUri: string -> Option<Entry>)

  function TypeName(kind: Kind): string
  {
    match kind
    case Dns => "dns"
    case Ip => "ip"
    case Email => "email"
    case PermanentIdentifier => "permanent-identifier"
  }

  predicate IsControl(c: char)
  {
    c < ' ' || c == 127 as char
  }

  /** The value normalised, or "" when it is not a value of that type. */
  function Normal(syntax: Syntax, kind: Kind, value: string): string
  {
    match kind
    case Dns =>
      var lower := Text.Lower(value);
      if syntax.dns(lower) && |lower| <= 253 && !syntax.ip(lower) then lower else ""
    case Ip => if syntax.ip(value) then Text.Lower(value) else ""
    case Email => if syntax.email(value) then value else ""
    case PermanentIdentifier =>
      if |value| <= 256 && forall c :: c in value ==> !IsControl(c) then value else ""
  }

  /** The address test does not mind case. */
  ghost predicate CaseBlind(syntax: Syntax)
  {
    forall text :: syntax.ip(text) ==> syntax.ip(Text.Lower(text))
  }

  lemma NormalIdempotent(syntax: Syntax, kind: Kind, value: string)
    requires CaseBlind(syntax)
    requires Normal(syntax, kind, value) != ""
    ensures Normal(syntax, kind, Normal(syntax, kind, value)) == Normal(syntax, kind, value)
  {
    Text.LowerIdempotent(value);
  }

  /** A value an identifier of its type can have. */
  predicate Acceptable(syntax: Syntax, kind: Kind, v: string)
  {
    && v != ""
    && match kind
       case Dns => syntax.dns(Text.Lower(v)) && |v| <= 253 && !syntax.ip(Text.Lower(v))
       case Ip => syntax.ip(v)
       case Email => syntax.email(v)
       case PermanentIdentifier => |v| <= 256 && forall c :: c in v ==> ' ' <= c && c as int != 127
  }

  /** Exactly those are normalised: a host name and an address to lower case, the
      others to themselves. */
  lemma NormalIs(syntax: Syntax, kind: Kind, v: string)
    ensures Normal(syntax, kind, v) != "" <==> Acceptable(syntax, kind, v)
    ensures Acceptable(syntax, kind, v) ==>
              Normal(syntax, kind, v) == if kind.Dns? || kind.Ip? then Text.Lower(v) else v
  {
  }

  /** An identifier with the case the comparison ignores taken out. */
  function Folded(id: Identifier): Identifier
  {
    if id.kind.Email? || id.kind.Dns? then id.(value := Text.Lower(id.value)) else id
  }

  /** One identifier, told apart by its type and, for a host name and an e-mail
      address but in no case, its value. */
  predicate Alike(a: Identifier, b: Identifier)
  {
    && a.kind == b.kind
    && if a.kind.Dns? || a.kind.Email? then Text.Lower(a.value) == Text.Lower(b.value) else a.value == b.value
  }

  lemma FoldedIsAlike(a: Identifier, b: Identifier)
    ensures Folded(a) == Folded(b) <==> Alike(a, b)
  {
  }

  /** `keyOf`. */
  function Key(id: Identifier): string
  {
    TypeName(id.kind) + ":" + Folded(id).value
  }

  /** One key is one identifier, whatever the types and the values. */
  lemma KeyInjective(a: Identifier, b: Identifier)
    ensures Key(a) == Key(b) <==> Folded(a) == Folded(b)
  {
    if Key(a) == Key(b) {
      SplitKey(a);
      SplitKey(b);
      assert TypeName(a.kind) == TypeName(b.kind);
      var n := |TypeName(a.kind)| + 1;
      assert Key(a)[n..] == Folded(a).value && Key(b)[n..] == Folded(b).value;
    }
  }

  lemma SplitKey(id: Identifier)
    ensures Text.Split(Key(id), ':')[0] == TypeName(id.kind)
  {
    Text.SplitWhole(TypeName(id.kind), ':');
    assert Key(id) == TypeName(id.kind) + [':'] + Folded(id).value;
    Text.SplitConcat(TypeName(id.kind), ':', Folded(id).value);
  }

  // ----- what the rule says, on identifiers --------------------------------

  function FoldedSet(ids: seq<Identifier>): set<Identifier>
  {
    set id | id in ids :: Folded(id)
  }

  function NamedBy(syntax: Syntax, kind: Kind, values: seq<string>): set<Identifier>
  {
    set v | v in values && Normal(syntax, kind, v) != "" :: Folded(Identifier(kind, Normal(syntax, kind, v)))
  }

  predicate OwnKind(syntax: Syntax, uri: string, entryKind: string)
  {
    syntax.entryFromUri(uri).Some? && syntax.entryFromUri(uri).value.kind == entryKind
  }

  function UriIdentifier(syntax: Syntax, uri: string): Identifier
    requires syntax.entryFromUri(uri).Some?
  {
    Identifier(PermanentIdentifier, syntax.entryFromUri(uri).value.id)
  }

  function NamedByUris(syntax: Syntax, uris: seq<string>, entryKind: string): set<Identifier>
  {
    set u | u in uris && OwnKind(syntax, u, entryKind) :: UriIdentifier(syntax, u)
  }

  /** Which of a set of identifiers the common name is, the first type first. */
  function FirstOf(ids: set<Identifier>, cn: string): Option<Identifier>
  {
    if Folded(Identifier(Dns, cn)) in ids then Some(Folded(Identifier(Dns, cn)))
    else if Identifier(Ip, cn) in ids then Some(Identifier(Ip, cn))
    else if Folded(Identifier(Email, cn)) in ids then Some(Folded(Identifier(Email, cn)))
    else if Identifier(PermanentIdentifier, cn) in ids then Some(Identifier(PermanentIdentifier, cn))
    else None
  }

  function CommonNameIs(order: OrderNames, cn: string): Option<Identifier>
  {
    FirstOf(FoldedSet(order.identifiers), cn)
  }

  function AltNameSet(syntax: Syntax, csr: Csr, entryKind: string): set<Identifier>
  {
    NamedBy(syntax, Dns, csr.dns) + NamedBy(syntax, Ip, csr.ips) + NamedBy(syntax, Email, csr.emails)
    + NamedByUris(syntax, csr.uris, entryKind)
  }

  function CommonNameSet(csr: Csr, order: OrderNames): set<Identifier>
  {
    if csr.commonName != "" && CommonNameIs(order, csr.commonName).Some?
    then {CommonNameIs(order, csr.commonName).value} else {}
  }

  /** The identifiers a CSR names. */
  function Names(syntax: Syntax, csr: Csr, order: OrderNames, entryKind: string): set<Identifier>
  {
    AltNameSet(syntax, csr, entryKind) + CommonNameSet(csr, order)
  }

  /** Every name is one an order can hold. */
  predicate Readable(syntax: Syntax, csr: Csr, order: OrderNames, entryKind: string)
  {
    && AltNamesReadable(syntax, csr, entryKind)
    && (csr.upns != [] ==> order.profile == "smartcard-logon")
    && (csr.commonName != "" ==> CommonNameIs(order, csr.commonName).Some?)
  }

  // ----- what the code does, on keys ---------------------------------------

  datatype Problem =
    | NotInOrder(bad: seq<string>)
    | NotNamed(missing: set<string>)

  function Keys(ids: set<Identifier>): set<string>
  {
    set id | id in ids :: Key(id)
  }

  /** On folded identifiers, comparing keys is comparing identifiers. */
  lemma KeysFaithful(a: set<Identifier>, b: set<Identifier>)
    requires AllFolded(a) && AllFolded(b)
    ensures Keys(a) <= Keys(b) <==> a <= b
  {
    if Keys(a) <= Keys(b) {
      forall id | id in a ensures id in b {
        assert Key(id) in Keys(b);
        var other :| other in b && Key(other) == Key(id);
        KeyInjective(id, other);
      }
    }
  }

  lemma FoldTwice(id: Identifier)
    ensures Folded(Folded(id)) == Folded(id)
  {
    Text.LowerIdempotent(id.value);
  }

  /** The values of a list that are not values of its type, as they are named. */
  function Rejected(syntax: Syntax, kind: Kind, what: string, values: seq<string>): seq<string>
  {
    if values == [] then []
    else
      var last := values[|values| - 1];
      Rejected(syntax, kind, what, values[..|values| - 1])
      + (if Normal(syntax, kind, last) == "" then [what + last] else [])
  }

  lemma {:induction false} NoneRejected(syntax: Syntax, kind: Kind, what: string, values: seq<string>)
    ensures Rejected(syntax, kind, what, values) == [] <==> forall v :: v in values ==> Normal(syntax, kind, v) != ""
  {
    if values != [] {
      NoneRejected(syntax, kind, what, values[..|values| - 1]);
      assert values == values[..|values| - 1] + [values[|values| - 1]];
    }
  }

  lemma KeysSplit(a: set<Identifier>, b: set<Identifier>)
    ensures Keys(a + b) == Keys(a) + Keys(b)
  {
  }

  lemma NamedByOneMore(syntax: Syntax, kind: Kind, values: seq<string>, v: string)
    ensures NamedBy(syntax, kind, values + [v]) ==
            NamedBy(syntax, kind, values) +
            (if Normal(syntax, kind, v) == "" then {} else {Folded(Identifier(kind, Normal(syntax, kind, v)))})
  {
    assert forall x :: x in values + [v] <==> x in values || x == v;
  }

  lemma NamedByStep(syntax: Syntax, kind: Kind, values: seq<string>, v: string)
    ensures Keys(NamedBy(syntax, kind, values + [v])) ==
            Keys(NamedBy(syntax, kind, values)) +
            (if Normal(syntax, kind, v) == "" then {} else {Key(Identifier(kind, Normal(syntax, kind, v)))})
  {
    NamedByOneMore(syntax, kind, values, v);
    if Normal(syntax, kind, v) != "" {
      var id := Identifier(kind, Normal(syntax, kind, v));
      FoldTwice(id);
      KeysSplit(NamedBy(syntax, kind, values), {Folded(id)});
    }
  }

  method AddNames(syntax: Syntax, kind: Kind, what: string, values: seq<string>)
    returns (have: set<string>, bad: seq<string>)
    ensures have == Keys(NamedBy(syntax, kind, values))
    ensures bad == Rejected(syntax, kind, what, values)
  {
    have, bad := {}, [];
    assert values[..0] == [];
    for i := 0 to |values|
      invariant have == Keys(NamedBy(syntax, kind, values[..i]))
      invariant bad == Rejected(syntax, kind, what, values[..i])
    {
      NamedByStep(syntax, kind, values[..i], values[i]);
      assert values[..i + 1] == values[..i] + [values[i]];
      var normal := Normal(syntax, kind, values[i]);
      if normal == "" {
        bad := bad + [what + values[i]];
      } else {
        have := have + {Key(Identifier(kind, normal))};
      }
    }
    assert values[..|values|] == values;
  }

  function RejectedUris(syntax: Syntax, uris: seq<string>, entryKind: string): seq<string>
  {
    if uris == [] then []
    else
      var last := uris[|uris| - 1];
      RejectedUris(syntax, uris[..|uris| - 1], entryKind)
      + (if OwnKind(syntax, last, entryKind) then [] else ["URI " + last])
  }

  lemma {:induction false} NoUriRejected(syntax: Syntax, uris: seq<string>, entryKind: string)
    ensures RejectedUris(syntax, uris, entryKind) == [] <==> forall u :: u in uris ==> OwnKind(syntax, u, entryKind)
  {
    if uris != [] {
      NoUriRejected(syntax, uris[..|uris| - 1], entryKind);
      assert uris == uris[..|uris| - 1] + [uris[|uris| - 1]];
    }
  }

  lemma UriStep(syntax: Syntax, uris: seq<string>, u: string, entryKind: string)
    ensures Keys(NamedByUris(syntax, uris + [u], entryKind)) ==
            Keys(NamedByUris(syntax, uris, entryKind)) +
            (if OwnKind(syntax, u, entryKind) then {Key(UriIdentifier(syntax, u))} else {})
  {
    var before, after := NamedByUris(syntax, uris, entryKind), NamedByUris(syntax, uris + [u], entryKind);
    if OwnKind(syntax, u, entryKind) {
      assert after == before + {UriIdentifier(syntax, u)};
      KeysSplit(before, {UriIdentifier(syntax, u)});
    } else {
      assert after == before;
    }
  }

  method AddUris(syntax: Syntax, uris: seq<string>, entryKind: string)
    returns (have: set<string>, bad: seq<string>)
    ensures have == Keys(NamedByUris(syntax, uris, entryKind))
    ensures bad == RejectedUris(syntax, uris, entryKind)
  {
    have, bad := {}, [];
    assert uris[..0] == [];
    for i := 0 to |uris|
      invariant have == Keys(NamedByUris(syntax, uris[..i], entryKind))
      invariant bad == RejectedUris(syntax, uris[..i], entryKind)
    {
      UriStep(syntax, uris[..i], uris[i], entryKind);
      assert uris[..i + 1] == uris[..i] + [uris[i]];
      var named := syntax.entryFromUri(uris[i]);
      if named.Some? && named.value.kind == entryKind {
        have := have + {Key(Identifier(PermanentIdentifier, named.value.id))};
      } else {
        bad := bad + ["URI " + uris[i]];
      }
    }
    assert uris[..|uris|] == uris;
  }

  /** The first of the four keys the common name makes that the order holds. */
  function MatchKey(want: set<string>, cn: string): Option<string>
  {
    if Key(Identifier(Dns, cn)) in want then Some(Key(Identifier(Dns, cn)))
    else if Key(Identifier(Ip, cn)) in want then Some(Key(Identifier(Ip, cn)))
    else if Key(Identifier(Email, cn)) in want then Some(Key(Identifier(Email, cn)))
    else if Key(Identifier(PermanentIdentifier, cn)) in want then Some(Key(Identifier(PermanentIdentifier, cn)))
    else None
  }

  ghost predicate AllFolded(ids: set<Identifier>)
  {
    forall id :: id in ids ==> Folded(id) == id
  }

  lemma KeyIn(ids: set<Identifier>, id: Identifier)
    requires AllFolded(ids)
    ensures Key(id) in Keys(ids) <==> Folded(id) in ids
    ensures Key(Folded(id)) == Key(id)
  {
    FoldTwice(id);
    if Key(id) in Keys(ids) {
      var other :| other in ids && Key(other) == Key(id);
      KeyInjective(id, other);
    }
  }

  lemma MatchKeyIsFirst(ids: set<Identifier>, cn: string)
    requires AllFolded(ids)
    ensures MatchKey(Keys(ids), cn) ==
            var first := FirstOf(ids, cn);
            if first.Some? then Some(Key(first.value)) else None
  {
    KeyIn(ids, Identifier(Dns, cn));
    KeyIn(ids, Identifier(Ip, cn));
    KeyIn(ids, Identifier(Email, cn));
    KeyIn(ids, Identifier(PermanentIdentifier, cn));
  }

  lemma SetsAreFolded(syntax: Syntax, csr: Csr, order: OrderNames, entryKind: string)
    ensures AllFolded(FoldedSet(order.identifiers))
    ensures AllFolded(Names(syntax, csr, order, entryKind))
  {
    forall id: Identifier { FoldTwice(id); }
  }

  /** The CSR's subject alternative names: the keys they make, and what is refused. */
  method AltNames(syntax: Syntax, csr: Csr, entryKind: string) returns (have: set<string>, bad: seq<string>)
    ensures have == Keys(AltNameSet(syntax, csr, entryKind))
    ensures bad == RejectedAltNames(syntax, csr, entryKind)
  {
    var dns, badDns := AddNames(syntax, Dns, "dNSName ", csr.dns);
    var ips, badIps := AddNames(syntax, Ip, "iPAddress ", csr.ips);
    var emails, badEmails := AddNames(syntax, Email, "rfc822Name ", csr.emails);
    var uris, badUris := AddUris(syntax, csr.uris, entryKind);
    have := dns + ips + emails + uris;
    bad := badDns + badIps + badEmails + badUris;
    KeysSplit(NamedBy(syntax, Dns, csr.dns), NamedBy(syntax, Ip, csr.ips));
    KeysSplit(NamedBy(syntax, Dns, csr.dns) + NamedBy(syntax, Ip, csr.ips), NamedBy(syntax, Email, csr.emails));
    KeysSplit(NamedBy(syntax, Dns, csr.dns) + NamedBy(syntax, Ip, csr.ips) + NamedBy(syntax, Email, csr.emails),
              NamedByUris(syntax, csr.uris, entryKind));
  }

  function RejectedAltNames(syntax: Syntax, csr: Csr, entryKind: string): seq<string>
  {
    Rejected(syntax, Dns, "dNSName ", csr.dns) + Rejected(syntax, Ip, "iPAddress ", csr.ips)
    + Rejected(syntax, Email, "rfc822Name ", csr.emails) + RejectedUris(syntax, csr.uris, entryKind)
  }

  const UPN_PROBLEM := "a user principal name, which only a smartcard-logon order carries"

  /** The names refused before the two key sets are compared. */
  function Refused(syntax: Syntax, csr: Csr, order: OrderNames, entryKind: string): seq<string>
  {
    RejectedAltNames(syntax, csr, entryKind)
    + (if csr.upns != [] && order.profile != "smartcard-logon" then [UPN_PROBLEM] else [])
    + (if csr.commonName != "" && CommonNameIs(order, csr.commonName).None?
       then ["the common name \"" + csr.commonName + "\""] else [])
  }

  lemma RefusedIffUnreadable(syntax: Syntax, csr: Csr, order: OrderNames, entryKind: string)
    ensures Refused(syntax, csr, order, entryKind) == [] <==> Readable(syntax, csr, order, entryKind)
  {
    NoneRejected(syntax, Dns, "dNSName ", csr.dns);
    NoneRejected(syntax, Ip, "iPAddress ", csr.ips);
    NoneRejected(syntax, Email, "rfc822Name ", csr.emails);
    NoUriRejected(syntax, csr.uris, entryKind);
  }

  method WantedKeys(identifiers: seq<Identifier>) returns (want: set<string>)
    ensures want == Keys(FoldedSet(identifiers))
  {
    want := {};
    for i := 0 to |identifiers|
      invariant want == Keys(FoldedSet(identifiers[..i]))
    {
      var id := identifiers[i];
      assert FoldedSet(identifiers[..i + 1]) == FoldedSet(identifiers[..i]) + {Folded(id)};
      KeysSplit(FoldedSet(identifiers[..i]), {Folded(id)});
      FoldTwice(id);
      want := want + {Key(id)};
    }
    assert identifiers[..|identifiers|] == identifiers;
  }

  method NamedKeys(syntax: Syntax, csr: Csr, order: OrderNames, entryKind: string, want: set<string>)
    returns (have: set<string>, bad: seq<string>)
    requires want == Keys(FoldedSet(order.identifiers))
    ensures have == Keys(Names(syntax, csr, order, entryKind))
    ensures bad == Refused(syntax, csr, order, entryKind)
  {
    have, bad := AltNames(syntax, csr, entryKind);
    if csr.upns != [] && order.profile != "smartcard-logon" {
      bad := bad + [UPN_PROBLEM];
    }
    SetsAreFolded(syntax, csr, order, entryKind);
    MatchKeyIsFirst(FoldedSet(order.identifiers), csr.commonName);
    if csr.commonName != "" {
      var found := MatchKey(want, csr.commonName);
      if found.Some? {
        have := have + {found.value};
      } else {
        bad := bad + ["the common name \"" + csr.commonName + "\""];
      }
    }
    KeysSplit(AltNameSet(syntax, csr, entryKind), CommonNameSet(csr, order));
  }

  lemma SameKeysSameNames(a: set<Identifier>, b: set<Identifier>)
    requires AllFolded(a) && AllFolded(b)
    ensures a == b <==> Keys(a) == Keys(b)
  {
    if Keys(a) == Keys(b) {
      KeysFaithful(a, b);
      KeysFaithful(b, a);
    }
  }

  /** What the comparison of two key sets answers: the refused names first,
      then, in no set order, the keys the order does not hold. */
  ghost predicate Compared(problem: Option<Problem>, refused: seq<string>, have: set<string>, want: set<string>)
  {
    match problem
    case None => refused == [] && have == want
    case Some(NotInOrder(bad)) =>
      bad != [] && refused <= bad && forall k :: k in bad[|refused|..] <==> k in have && k !in want
    case Some(NotNamed(missing)) =>
      refused == [] && have <= want && missing == want - have && missing != {}
  }

  lemma ComparedNone(problem: Option<Problem>, refused: seq<string>, have: set<string>, want: set<string>)
    requires Compared(problem, refused, have, want)
    ensures problem.None? <==> refused == [] && have == want
  {
    if problem.Some? && problem.value.NotInOrder? && refused == [] {
      var bad := problem.value.bad;
      assert bad[0] in bad[|refused|..];
    }
  }

  method Compare(refused: seq<string>, have: set<string>, want: set<string>)
    returns (problem: Option<Problem>)
    ensures Compared(problem, refused, have, want)
  {
    var extra := Listed(have - want);
    var bad := refused + extra;
    assert bad[|refused|..] == extra;
    if bad != [] {
      return Some(NotInOrder(bad));
    }
    assert forall k :: k in have ==> k in want || k in extra;
    var missing := want - have;
    if missing != {} {
      return Some(NotNamed(missing));
    }
    assert forall k :: k in want ==> k in have || k in missing;
    problem := None;
  }

  // ----- the rule in plain terms --------------------------------------------

  /** A name of a CSR and an identifier of its order are the same one. */
  predicate Spells(kind: Kind, v: string, own: Identifier)
  {
    && own.kind == kind
    && match kind
       case Dns => Text.Lower(own.value) == Text.Lower(v)
       case Ip => own.value == Text.Lower(v)
       case Email => Text.Lower(own.value) == Text.Lower(v)
       case PermanentIdentifier => own.value == v
  }

  /** A list of names of one type each spells an identifier of the order. */
  ghost predicate AllSpell(syntax: Syntax, kind: Kind, values: seq<string>, order: OrderNames)
  {
    forall v :: v in values ==>
      Acceptable(syntax, kind, v) && exists own :: own in order.identifiers && Spells(kind, v, own)
  }

  ghost predicate Spelled(syntax: Syntax, kind: Kind, values: seq<string>, own: Identifier)
  {
    exists v :: v in values && Acceptable(syntax, kind, v) && Spells(kind, v, own)
  }

  predicate UriNames(syntax: Syntax, uri: string, entryKind: string, own: Identifier)
  {
    own.kind.PermanentIdentifier? && syntax.entryFromUri(uri) == Some(Entry(entryKind, own.value))
  }

  /** The common name can be this identifier. */
  predicate CouldBe(cn: string, own: Identifier)
  {
    Alike(own, Identifier(own.kind, cn))
  }

  function Rank(kind: Kind): nat
  {
    match kind
    case Dns => 0
    case Ip => 1
    case Email => 2
    case PermanentIdentifier => 3
  }

  /** It is this one: of those it can be, one of the earliest type. */
  ghost predicate IsNamedBy(order: OrderNames, cn: string, own: Identifier)
  {
    && own in order.identifiers && CouldBe(cn, own)
    && forall other :: other in order.identifiers && CouldBe(cn, other) ==> Rank(own.kind) <= Rank(other.kind)
  }

  ghost predicate NamedInCsr(syntax: Syntax, csr: Csr, order: OrderNames, entryKind: string, own: Identifier)
  {
    || (csr.commonName != "" && IsNamedBy(order, csr.commonName, own))
    || match own.kind
       case Dns => Spelled(syntax, Dns, csr.dns, own)
       case Ip => Spelled(syntax, Ip, csr.ips, own)
       case Email => Spelled(syntax, Email, csr.emails, own)
       case PermanentIdentifier => exists u :: u in csr.uris && UriNames(syntax, u, entryKind, own)
  }

  /** The CSR names nothing but identifiers of the order, and all of them. */
  ghost predicate NamesExactly(syntax: Syntax, csr: Csr, order: OrderNames, entryKind: string)
  {
    && AltNamesSpell(syntax, csr, order, entryKind)
    && (csr.upns != [] ==> order.profile == "smartcard-logon")
    && (csr.commonName != "" ==> exists own :: own in order.identifiers && CouldBe(csr.commonName, own))
    && AllNamed(syntax, csr, order, entryKind)
  }

  lemma NormalSpells(syntax: Syntax, kind: Kind, v: string, own: Identifier)
    requires Acceptable(syntax, kind, v)
    ensures Normal(syntax, kind, v) != ""
    ensures Folded(Identifier(kind, Normal(syntax, kind, v))) == Folded(own) <==> Spells(kind, v, own)
  {
    NormalIs(syntax, kind, v);
    Text.LowerIdempotent(v);
  }

  lemma AllSpellIs(syntax: Syntax, kind: Kind, values: seq<string>, order: OrderNames)
    ensures AllSpell(syntax, kind, values, order) <==>
            (forall v :: v in values ==> Normal(syntax, kind, v) != "")
            && NamedBy(syntax, kind, values) <= FoldedSet(order.identifiers)
  {
    forall v { NormalIs(syntax, kind, v); }
    if AllSpell(syntax, kind, values, order) {
      forall id | id in NamedBy(syntax, kind, values) ensures id in FoldedSet(order.identifiers) {
        var v :| v in values && Normal(syntax, kind, v) != ""
                 && id == Folded(Identifier(kind, Normal(syntax, kind, v)));
        var own :| own in order.identifiers && Spells(kind, v, own);
        NormalSpells(syntax, kind, v, own);
      }
    } else if NamedBy(syntax, kind, values) <= FoldedSet(order.identifiers) {
      forall v | v in values && Acceptable(syntax, kind, v)
        ensures exists own :: own in order.identifiers && Spells(kind, v, own)
      {
        assert Folded(Identifier(kind, Normal(syntax, kind, v))) in NamedBy(syntax, kind, values);
        var own :| own in order.identifiers && Folded(own) == Folded(Identifier(kind, Normal(syntax, kind, v)));
        NormalSpells(syntax, kind, v, own);
      }
    }
  }

  lemma SpelledIs(syntax: Syntax, kind: Kind, values: seq<string>, own: Identifier)
    ensures Spelled(syntax, kind, values, own) <==> Folded(own) in NamedBy(syntax, kind, values)
  {
    forall v { NormalIs(syntax, kind, v); }
    if v :| v in values && Acceptable(syntax, kind, v) && Spells(kind, v, own) {
      NormalSpells(syntax, kind, v, own);
    }
    if Folded(own) in NamedBy(syntax, kind, values) {
      var v :| v in values && Normal(syntax, kind, v) != ""
               && Folded(own) == Folded(Identifier(kind, Normal(syntax, kind, v)));
      NormalSpells(syntax, kind, v, own);
    }
  }

  lemma UrisNameIs(syntax: Syntax, uris: seq<string>, entryKind: string, order: OrderNames)
    ensures (forall u :: u in uris ==> exists own :: own in order.identifiers && UriNames(syntax, u, entryKind, own))
       <==> && (forall u :: u in uris ==> OwnKind(syntax, u, entryKind))
            && NamedByUris(syntax, uris, entryKind) <= FoldedSet(order.identifiers)
  {
    if forall u :: u in uris ==> exists own :: own in order.identifiers && UriNames(syntax, u, entryKind, own) {
      forall id | id in NamedByUris(syntax, uris, entryKind) ensures id in FoldedSet(order.identifiers) {
        var u :| u in uris && OwnKind(syntax, u, entryKind) && id == UriIdentifier(syntax, u);
        var own :| own in order.identifiers && UriNames(syntax, u, entryKind, own);
        assert Folded(own) == id;
      }
    } else if NamedByUris(syntax, uris, entryKind) <= FoldedSet(order.identifiers) {
      forall u | u in uris && OwnKind(syntax, u, entryKind)
        ensures exists own :: own in order.identifiers && UriNames(syntax, u, entryKind, own)
      {
        assert UriIdentifier(syntax, u) in NamedByUris(syntax, uris, entryKind);
        var own :| own in order.identifiers && Folded(own) == UriIdentifier(syntax, u);
        assert UriNames(syntax, u, entryKind, own);
      }
    }
  }

  /** Which alternative names name an identifier. */
  lemma AltNamedIs(syntax: Syntax, csr: Csr, entryKind: string, own: Identifier)
    ensures Folded(own) in AltNameSet(syntax, csr, entryKind) <==>
            match own.kind
            case Dns => Spelled(syntax, Dns, csr.dns, own)
            case Ip => Spelled(syntax, Ip, csr.ips, own)
            case Email => Spelled(syntax, Email, csr.emails, own)
            case PermanentIdentifier => exists u :: u in csr.uris && UriNames(syntax, u, entryKind, own)
  {
    SpelledIs(syntax, Dns, csr.dns, own);
    SpelledIs(syntax, Ip, csr.ips, own);
    SpelledIs(syntax, Email, csr.emails, own);
    if u :| u in csr.uris && UriNames(syntax, u, entryKind, own) {
      assert OwnKind(syntax, u, entryKind) && UriIdentifier(syntax, u) == own;
    }
  }

  lemma HeldIs(order: OrderNames, kind: Kind, cn: string)
    ensures Folded(Identifier(kind, cn)) in FoldedSet(order.identifiers) <==>
            exists own :: own in order.identifiers && own.kind == kind && CouldBe(cn, own)
  {
    if own :| own in order.identifiers && own.kind == kind && CouldBe(cn, own) {
      FoldedIsAlike(own, Identifier(kind, cn));
    }
    if Folded(Identifier(kind, cn)) in FoldedSet(order.identifiers) {
      var own :| own in order.identifiers && Folded(own) == Folded(Identifier(kind, cn));
      FoldedIsAlike(own, Identifier(kind, cn));
    }
  }

  /** The first of the four forms of the common name that the order holds is the
      identifier of the earliest type it can be. */
  lemma CommonNameIsFirst(order: OrderNames, cn: string, own: Identifier)
    requires own in order.identifiers
    ensures CommonNameIs(order, cn) == Some(Folded(own)) <==> IsNamedBy(order, cn, own)
  {
    HeldIs(order, Dns, cn);
    HeldIs(order, Ip, cn);
    HeldIs(order, Email, cn);
    HeldIs(order, PermanentIdentifier, cn);
    FoldedIsAlike(own, Identifier(own.kind, cn));
  }

  lemma CommonNameFound(order: OrderNames, cn: string)
    ensures CommonNameIs(order, cn).Some? <==> exists own :: own in order.identifiers && CouldBe(cn, own)
    ensures CommonNameIs(order, cn).Some? ==> CommonNameIs(order, cn).value in FoldedSet(order.identifiers)
  {
    HeldIs(order, Dns, cn);
    HeldIs(order, Ip, cn);
    HeldIs(order, Email, cn);
    HeldIs(order, PermanentIdentifier, cn);
    if own :| own in order.identifiers && CouldBe(cn, own) {
      assert exists other :: other in order.identifiers && other.kind == own.kind && CouldBe(cn, other);
    }
  }

  lemma NamedIs(syntax: Syntax, csr: Csr, order: OrderNames, entryKind: string, own: Identifier)
    requires own in order.identifiers
    ensures Folded(own) in Names(syntax, csr, order, entryKind) <==> NamedInCsr(syntax, csr, order, entryKind, own)
  {
    AltNamedIs(syntax, csr, entryKind, own);
    CommonNameIsFirst(order, csr.commonName, own);
    assert Folded(own) in CommonNameSet(csr, order) <==>
           csr.commonName != "" && CommonNameIs(order, csr.commonName) == Some(Folded(own));
  }

  /** The alternative names are names of the order's. */
  ghost predicate AltNamesSpell(syntax: Syntax, csr: Csr, order: OrderNames, entryKind: string)
  {
    && AllSpell(syntax, Dns, csr.dns, order) && AllSpell(syntax, Ip, csr.ips, order)
    && AllSpell(syntax, Email, csr.emails, order)
    && forall u :: u in csr.uris ==> exists own :: own in order.identifiers && UriNames(syntax, u, entryKind, own)
  }

  predicate AltNamesReadable(syntax: Syntax, csr: Csr, entryKind: string)
  {
    && (forall v :: v in csr.dns ==> Normal(syntax, Dns, v) != "")
    && (forall v :: v in csr.ips ==> Normal(syntax, Ip, v) != "")
    && (forall v :: v in csr.emails ==> Normal(syntax, Email, v) != "")
    && (forall u :: u in csr.uris ==> OwnKind(syntax, u, entryKind))
  }

  lemma AltNamesSpellIs(syntax: Syntax, csr: Csr, order: OrderNames, entryKind: string)
    ensures AltNamesSpell(syntax, csr, order, entryKind) <==>
            && AltNamesReadable(syntax, csr, entryKind)
            && AltNameSet(syntax, csr, entryKind) <= FoldedSet(order.identifiers)
  {
    AllSpellIs(syntax, Dns, csr.dns, order);
    AllSpellIs(syntax, Ip, csr.ips, order);
    AllSpellIs(syntax, Email, csr.emails, order);
    UrisNameIs(syntax, csr.uris, entryKind, order);
  }

  ghost predicate AllNamed(syntax: Syntax, csr: Csr, order: OrderNames, entryKind: string)
  {
    forall own :: own in order.identifiers ==> NamedInCsr(syntax, csr, order, entryKind, own)
  }

  lemma AllNamedIs(syntax: Syntax, csr: Csr, order: OrderNames, entryKind: string)
    ensures AllNamed(syntax, csr, order, entryKind) <==>
            FoldedSet(order.identifiers) <= Names(syntax, csr, order, entryKind)
  {
    forall own | own in order.identifiers { NamedIs(syntax, csr, order, entryKind, own); }
  }

  lemma CommonNameHeld(csr: Csr, order: OrderNames)
    ensures CommonNameSet(csr, order) <= FoldedSet(order.identifiers)
  {
    CommonNameFound(order, csr.commonName);
  }

  /** The code's comparison, said in plain terms. */
  lemma ExactlyIs(syntax: Syntax, csr: Csr, order: OrderNames, entryKind: string)
    ensures NamesExactly(syntax, csr, order, entryKind) <==>
            Readable(syntax, csr, order, entryKind) &&
            Names(syntax, csr, order, entryKind) == FoldedSet(order.identifiers)
  {
    AltNamesSpellIs(syntax, csr, order, entryKind);
    AllNamedIs(syntax, csr, order, entryKind);
    CommonNameHeld(csr, order);
    CommonNameFound(order, csr.commonName);
    SubsetsOfOne(AltNameSet(syntax, csr, entryKind), CommonNameSet(csr, order), FoldedSet(order.identifiers));
  }

  lemma SubsetsOfOne<T>(a: set<T>, b: set<T>, whole: set<T>)
    requires b <= whole
    ensures a + b == whole <==> a <= whole && whole <= a + b
  {
  }

  /** `csrNamesProblem`. */
  method CsrNamesProblem(syntax: Syntax, csr: Csr, order: OrderNames, entryKind: string)
    returns (problem: Option<Problem>)
    ensures Compared(problem, Refused(syntax, csr, order, entryKind),
                     Keys(Names(syntax, csr, order, entryKind)), Keys(FoldedSet(order.identifiers)))
    ensures problem.None? <==> NamesExactly(syntax, csr, order, entryKind)
    ensures problem.Some? && problem.value.NotNamed? ==>
              forall own :: own in order.identifiers ==>
                (Key(own) in problem.value.missing <==> !NamedInCsr(syntax, csr, order, entryKind, own))
    ensures problem.None? <==>
            Readable(syntax, csr, order, entryKind) &&
            Names(syntax, csr, order, entryKind) == FoldedSet(order.identifiers)
  {
    ExactlyIs(syntax, csr, order, entryKind);
    var want := WantedKeys(order.identifiers);
    var have, bad := NamedKeys(syntax, csr, order, entryKind, want);
    problem := Compare(bad, have, want);
    ComparedNone(problem, bad, have, want);
    SetsAreFolded(syntax, csr, order, entryKind);
    SameKeysSameNames(Names(syntax, csr, order, entryKind), FoldedSet(order.identifiers));
    RefusedIffUnreadable(syntax, csr, order, entryKind);
    forall own | own in order.identifiers { KeyMissing(syntax, csr, order, entryKind, own); }
  }

  lemma KeyMissing(syntax: Syntax, csr: Csr, order: OrderNames, entryKind: string, own: Identifier)
    requires own in order.identifiers
    ensures Key(own) in Keys(FoldedSet(order.identifiers))
    ensures Key(own) in Keys(Names(syntax, csr, order, entryKind)) <==>
            NamedInCsr(syntax, csr, order, entryKind, own)
  {
    SetsAreFolded(syntax, csr, order, entryKind);
    KeyIn(FoldedSet(order.identifiers), own);
    KeyIn(Names(syntax, csr, order, entryKind), own);
    NamedIs(syntax, csr, order, entryKind, own);
  }

  method Listed(keys: set<string>) returns (list: seq<string>)
    ensures forall k :: k in list <==> k in keys
  {
    list := [];
    var rest := keys;
    while rest != {}
      invariant rest <= keys
      invariant forall k :: k in list <==> k in keys && k !in rest
      decreases |rest|
    {
      var k :| k in rest;
      list := list + [k];
      rest := rest - {k};
    }
  }

  // ----- what it means ------------------------------------------------------

  /** A CSR as a client makes it from its order: each identifier where its type
      goes, an entry's identifier as a URI that names it or as the common name. */
  ghost predicate MadeFrom(syntax: Syntax, csr: Csr, order: OrderNames, entryKind: string)
  {
    && (forall v :: v in csr.dns <==> Identifier(Dns, v) in order.identifiers)
    && (forall v :: v in csr.ips <==> Identifier(Ip, v) in order.identifiers)
    && (forall v :: v in csr.emails <==> Identifier(Email, v) in order.identifiers)
    && (forall u :: u in csr.uris ==> exists own :: own in order.identifiers && UriNames(syntax, u, entryKind, own))
    && (forall own :: own in order.identifiers && own.kind.PermanentIdentifier? ==>
          || (exists u :: u in csr.uris && UriNames(syntax, u, entryKind, own))
          || (csr.commonName != "" && IsNamedBy(order, csr.commonName, own)))
    && csr.upns == []
    && (csr.commonName != "" ==> exists own :: own in order.identifiers && CouldBe(csr.commonName, own))
  }

  /** An order's identifiers as new-order stores them. */
  predicate Normalised(syntax: Syntax, order: OrderNames)
  {
    forall id :: id in order.identifiers && !id.kind.PermanentIdentifier? ==>
      && Acceptable(syntax, id.kind, id.value)
      && (id.kind.Dns? || id.kind.Ip? ==> Text.Lower(id.value) == id.value)
  }

  /** The CSR that names exactly the order's identifiers is accepted. */
  lemma ExactCsrAccepted(syntax: Syntax, csr: Csr, order: OrderNames, entryKind: string)
    requires Normalised(syntax, order) && MadeFrom(syntax, csr, order, entryKind)
    ensures NamesExactly(syntax, csr, order, entryKind)
  {
    forall v | v in csr.dns ensures Identifier(Dns, v) in order.identifiers {}
    forall v | v in csr.ips ensures Identifier(Ip, v) in order.identifiers {}
    forall v | v in csr.emails ensures Identifier(Email, v) in order.identifiers {}
    forall own | own in order.identifiers ensures NamedInCsr(syntax, csr, order, entryKind, own) {
      assert own == Identifier(own.kind, own.value);
    }
  }

  /** An entry's identifier that no URI names. */
  ghost predicate Unnamed(syntax: Syntax, order: OrderNames, entryKind: string, id: Identifier)
  {
    && id in order.identifiers && id.kind.PermanentIdentifier?
    && !exists u :: UriNames(syntax, u, entryKind, id)
  }

  /** There is at most one of those, and the common name can be it. */
  ghost predicate Nameable(syntax: Syntax, order: OrderNames, entryKind: string)
  {
    && (forall a, b :: Unnamed(syntax, order, entryKind, a) && Unnamed(syntax, order, entryKind, b) ==> a == b)
    && (forall a :: Unnamed(syntax, order, entryKind, a) ==> a.value != "" && IsNamedBy(order, a.value, a))
  }

  /** The names of a list of identifiers, each under its type. */
  lemma {:induction false} Placed(syntax: Syntax, ids: seq<Identifier>, entryKind: string)
    returns (dns: seq<string>, ips: seq<string>, emails: seq<string>, uris: seq<string>)
    ensures forall v :: v in dns <==> Identifier(Dns, v) in ids
    ensures forall v :: v in ips <==> Identifier(Ip, v) in ids
    ensures forall v :: v in emails <==> Identifier(Email, v) in ids
    ensures forall u :: u in uris ==> exists own :: own in ids && UriNames(syntax, u, entryKind, own)
    ensures forall id :: id in ids && (exists u :: UriNames(syntax, u, entryKind, id)) ==>
              exists u :: u in uris && UriNames(syntax, u, entryKind, id)
  {
    dns, ips, emails, uris := [], [], [], [];
    if ids != [] {
      var id := ids[0];
      assert ids == [id] + ids[1..];
      dns, ips, emails, uris := Placed(syntax, ids[1..], entryKind);
      match id.kind
      case Dns => dns := [id.value] + dns;
      case Ip => ips := [id.value] + ips;
      case Email => emails := [id.value] + emails;
      case PermanentIdentifier =>
      if u :| UriNames(syntax, u, entryKind, id) {
        uris := [u] + uris;
      }
    }
  }

  lemma MadeWhereNameable(syntax: Syntax, order: OrderNames, entryKind: string) returns (csr: Csr)
    requires Nameable(syntax, order, entryKind)
    ensures MadeFrom(syntax, csr, order, entryKind)
  {
    var dns, ips, emails, uris := Placed(syntax, order.identifiers, entryKind);
    csr := Csr(dns, ips, emails, uris, [], "");
    if a :| Unnamed(syntax, order, entryKind, a) {
      csr := Csr(dns, ips, emails, uris, [], a.value);
      assert IsNamedBy(order, csr.commonName, a);
    }
    forall own | own in order.identifiers && own.kind.PermanentIdentifier?
      ensures (exists u :: u in csr.uris && UriNames(syntax, u, entryKind, own))
           || (csr.commonName != "" && IsNamedBy(order, csr.commonName, own))
    {
      if !exists u :: UriNames(syntax, u, entryKind, own) {
        assert Unnamed(syntax, order, entryKind, own);
      }
    }
  }

  lemma AcceptedIsNameable(syntax: Syntax, csr: Csr, order: OrderNames, entryKind: string)
    requires NamesExactly(syntax, csr, order, entryKind)
    ensures Nameable(syntax, order, entryKind)
  {
    forall a | Unnamed(syntax, order, entryKind, a)
      ensures a.value == csr.commonName != "" && IsNamedBy(order, csr.commonName, a)
    {
      assert NamedInCsr(syntax, csr, order, entryKind, a);
    }
  }

  /** Which stored orders some CSR can finalize: exactly those all of whose
      identifiers can be written into one. */
  lemma FinalizableIff(syntax: Syntax, order: OrderNames, entryKind: string)
    requires Normalised(syntax, order)
    ensures (exists csr :: NamesExactly(syntax, csr, order, entryKind)) <==> Nameable(syntax, order, entryKind)
  {
    if Nameable(syntax, order, entryKind) {
      var csr := MadeWhereNameable(syntax, order, entryKind);
      ExactCsrAccepted(syntax, csr, order, entryKind);
    }
    if csr :| NamesExactly(syntax, csr, order, entryKind) {
      AcceptedIsNameable(syntax, csr, order, entryKind);
    }
  }

  // ----- how an order's identifiers come to be ------------------------------

  function KindOf(name: string): Option<Kind>
  {
    if name == "dns" then Some(Dns)
    else if name == "ip" then Some(Ip)
    else if name == "email" then Some(Email)
    else if name == "permanent-identifier" then Some(PermanentIdentifier)
    else None
  }

  /** An identifier as it is stored: normalised, and reduced to the bare
      identifier when it names an entry of the account's kind. */
  function StoredValue(syntax: Syntax, kind: Kind, value: string, entryKind: string): string
  {
    var normal := Normal(syntax, kind, value);
    if kind.PermanentIdentifier? && normal != "" && OwnKind(syntax, normal, entryKind)
    then syntax.entryFromUri(normal).value.id else normal
  }

  datatype Asked = Asked(kind: string, value: string)

  datatype Reading =
    | Identifiers(ids: seq<Identifier>)
    | Malformed(at: nat)
    | Twice(at: nat)
    | Unsupported(count: nat)

  function StoredId(syntax: Syntax, one: Asked, entryKind: string): Identifier
    requires KindOf(one.kind).Some?
  {
    var kind := KindOf(one.kind).value;
    Identifier(kind, StoredValue(syntax, kind, one.value, entryKind))
  }

  predicate Is(syntax: Syntax, one: Asked, entryKind: string, id: Identifier)
  {
    KindOf(one.kind).Some? && StoredId(syntax, one, entryKind) == id
  }

  ghost predicate Distinct(ids: seq<Identifier>)
  {
    forall i, j :: 0 <= i < j < |ids| ==> Folded(ids[i]) != Folded(ids[j])
  }

  ghost predicate KeysSeen(ids: seq<Identifier>, seen: set<string>)
  {
    forall key :: key in seen <==> exists k :: 0 <= k < |ids| && Key(ids[k]) == key
  }

  lemma DistinctGrows(ids: seq<Identifier>, seen: set<string>, id: Identifier) returns (at: nat)
    requires Distinct(ids) && KeysSeen(ids, seen)
    ensures Key(id) !in seen ==> Distinct(ids + [id])
    ensures Key(id) in seen ==> at < |ids| && Folded(ids[at]) == Folded(id)
  {
    at := 0;
    if Key(id) in seen {
      at :| 0 <= at < |ids| && Key(ids[at]) == Key(id);
      KeyInjective(ids[at], id);
    } else {
      forall k | 0 <= k < |ids| ensures Folded(ids[k]) != Folded(id) {
        KeyInjective(ids[k], id);
      }
    }
  }

  /** What is asked for, as it is stored: by the names of the types, and an entry's
      URI of the account's kind as the bare identifier. */
  predicate StoredAs(syntax: Syntax, one: Asked, entryKind: string, id: Identifier)
  {
    && Acceptable(syntax, id.kind, one.value)
    && match id.kind
       case Dns => one.kind == "dns" && id.value == Text.Lower(one.value)
       case Ip => one.kind == "ip" && id.value == Text.Lower(one.value)
       case Email => one.kind == "email" && id.value == one.value
       case PermanentIdentifier =>
         && one.kind == "permanent-identifier" && id.value != ""
         && if OwnKind(syntax, one.value, entryKind)
            then syntax.entryFromUri(one.value) == Some(Entry(entryKind, id.value))
            else id.value == one.value
  }

  /** One well-formed identifier for each asked for, no two alike. */
  ghost predicate ReadAs(syntax: Syntax, asked: seq<Asked>, entryKind: string, ids: seq<Identifier>)
  {
    && |ids| == |asked|
    && (forall i :: 0 <= i < |asked| ==> StoredAs(syntax, asked[i], entryKind, ids[i]))
    && forall i, j :: 0 <= i < j < |ids| ==> !Alike(ids[i], ids[j])
  }

  const TYPES := ["dns", "ip", "email", "permanent-identifier"]

  lemma KnownType(name: string)
    ensures KindOf(name).Some? <==> name in TYPES
    ensures KindOf(name).Some? ==> TypeName(KindOf(name).value) == name
  {
  }

  lemma StoredSays(syntax: Syntax, one: Asked, entryKind: string, id: Identifier)
    ensures StoredAs(syntax, one, entryKind, id) <==> Is(syntax, one, entryKind, id) && id.value != ""
  {
    NormalIs(syntax, id.kind, one.value);
  }

  ghost predicate Storable(syntax: Syntax, one: Asked, entryKind: string)
  {
    exists id :: StoredAs(syntax, one, entryKind, id)
  }

  ghost predicate TwinBefore(syntax: Syntax, asked: seq<Asked>, entryKind: string, at: nat)
    requires at < |asked|
  {
    exists i, a, b :: 0 <= i < at && StoredAs(syntax, asked[i], entryKind, a)
                      && StoredAs(syntax, asked[at], entryKind, b) && Alike(a, b)
  }

  /** The first of them are well-formed where their type is known, and no two alike. */
  ghost predicate GoodUntil(syntax: Syntax, asked: seq<Asked>, entryKind: string, n: nat)
    requires n <= |asked|
  {
    && (forall i :: 0 <= i < n && asked[i].kind in TYPES ==> Storable(syntax, asked[i], entryKind))
    && forall j :: 0 <= j < n ==> !TwinBefore(syntax, asked, entryKind, j)
  }

  function UnknownTypes(asked: seq<Asked>, n: nat): set<nat>
    requires n <= |asked|
  {
    set i | 0 <= i < n && asked[i].kind !in TYPES
  }

  /** The identifiers read so far, and where each was asked for. */
  ghost predicate ReadSoFar(syntax: Syntax, asked: seq<Asked>, entryKind: string, n: nat, ids: seq<Identifier>,
                            from: seq<nat>)
    requires n <= |asked|
  {
    && |from| == |ids| && Distinct(ids)
    && (forall k :: 0 <= k < |ids| ==> from[k] < n && StoredAs(syntax, asked[from[k]], entryKind, ids[k]))
    && (forall j, k :: 0 <= j < k < |ids| ==> from[j] < from[k])
    && forall i :: 0 <= i < n && asked[i].kind in TYPES ==> i in from
  }

  lemma StoredOnce(syntax: Syntax, one: Asked, entryKind: string, a: Identifier, b: Identifier)
    requires StoredAs(syntax, one, entryKind, a) && StoredAs(syntax, one, entryKind, b)
    ensures a == b && one.kind in TYPES
  {
  }

  lemma ReadIsGood(syntax: Syntax, asked: seq<Asked>, entryKind: string, n: nat, ids: seq<Identifier>, from: seq<nat>)
    requires n <= |asked| && ReadSoFar(syntax, asked, entryKind, n, ids, from)
    ensures GoodUntil(syntax, asked, entryKind, n)
  {
    forall i | 0 <= i < n && asked[i].kind in TYPES ensures Storable(syntax, asked[i], entryKind) {
      var k :| 0 <= k < |ids| && from[k] == i;
      assert StoredAs(syntax, asked[i], entryKind, ids[k]);
    }
    forall i, j, a, b | 0 <= i < j < n && StoredAs(syntax, asked[i], entryKind, a)
                        && StoredAs(syntax, asked[j], entryKind, b)
      ensures !Alike(a, b)
    {
      StoredOnce(syntax, asked[i], entryKind, a, a);
      StoredOnce(syntax, asked[j], entryKind, b, b);
      var k :| 0 <= k < |ids| && from[k] == i;
      var l :| 0 <= l < |ids| && from[l] == j;
      StoredOnce(syntax, asked[i], entryKind, a, ids[k]);
      StoredOnce(syntax, asked[j], entryKind, b, ids[l]);
      FoldedIsAlike(ids[k], ids[l]);
    }
  }

  /** One more, of a known type, well-formed and like none before. */
  lemma ReadOneMore(syntax: Syntax, asked: seq<Asked>, entryKind: string, n: nat, ids: seq<Identifier>, from: seq<nat>,
                    id: Identifier)
    requires n < |asked| && ReadSoFar(syntax, asked, entryKind, n, ids, from)
    requires StoredAs(syntax, asked[n], entryKind, id) && Distinct(ids + [id])
    ensures ReadSoFar(syntax, asked, entryKind, n + 1, ids + [id], from + [n])
  {
  }

  /** Of known types all: one identifier for each. */
  lemma {:induction false} AllKnown(from: seq<nat>, n: nat)
    requires forall k :: 0 <= k < |from| ==> from[k] < n
    requires forall j, k :: 0 <= j < k < |from| ==> from[j] < from[k]
    requires forall i :: 0 <= i < n ==> i in from
    ensures |from| == n && forall k :: 0 <= k < n ==> from[k] == k
  {
    if from == [] {
      assert n > 0 ==> 0 in from;
    } else {
      var last := |from| - 1;
      assert from[last] < n;
      assert n - 1 in from;
      assert from == from[..last] + [n - 1];
      forall i | 0 <= i < n - 1 ensures i in from[..last] {
        assert i in from;
      }
      AllKnown(from[..last], n - 1);
    }
  }

  /** new-order's loop over the identifiers asked for. The first that is malformed or
      alike an earlier one decides; otherwise the types that are not known. */
  method ReadIdentifiers(syntax: Syntax, asked: seq<Asked>, entryKind: string) returns (reading: Reading)
    ensures match reading
            case Identifiers(ids) => ReadAs(syntax, asked, entryKind, ids)
            case Malformed(at) =>
              at < |asked| && GoodUntil(syntax, asked, entryKind, at)
              && asked[at].kind in TYPES && !Storable(syntax, asked[at], entryKind)
            case Twice(at) =>
              at < |asked| && GoodUntil(syntax, asked, entryKind, at) && TwinBefore(syntax, asked, entryKind, at)
            case Unsupported(count) =>
              GoodUntil(syntax, asked, entryKind, |asked|) && count == |UnknownTypes(asked, |asked|)| > 0
  {
    var ids, seen: set<string>, unsupported: nat := [], {}, 0;
    ghost var from: seq<nat> := [];
    for i := 0 to |asked|
      invariant unsupported == |UnknownTypes(asked, i)|
      invariant ReadSoFar(syntax, asked, entryKind, i, ids, from)
      invariant KeysSeen(ids, seen)
    {
      KnownType(asked[i].kind);
      UnknownGrows(asked, i);
      ReadIsGood(syntax, asked, entryKind, i, ids, from);
      if KindOf(asked[i].kind).None? {
        unsupported := unsupported + 1;
        continue;
      }
      var id := StoredId(syntax, asked[i], entryKind);
      StoredSays(syntax, asked[i], entryKind, id);
      if id.value == "" {
        NotStorable(syntax, asked[i], entryKind);
        return Malformed(i);
      }
      ghost var at := DistinctGrows(ids, seen, id);
      if Key(id) in seen {
        FoldedIsAlike(ids[at], id);
        assert StoredAs(syntax, asked[from[at]], entryKind, ids[at]);
        return Twice(i);
      }
      seen := SeenGrows(ids, seen, id);
      ReadOneMore(syntax, asked, entryKind, i, ids, from, id);
      ids, from := ids + [id], from + [i];
    }
    ReadIsGood(syntax, asked, entryKind, |asked|, ids, from);
    if unsupported > 0 {
      return Unsupported(unsupported);
    }
    forall i | 0 <= i < |asked| ensures asked[i].kind in TYPES {
      assert i !in UnknownTypes(asked, |asked|);
    }
    AllKnown(from, |asked|);
    forall i, j | 0 <= i < j < |ids| { FoldedIsAlike(ids[i], ids[j]); }
    reading := Identifiers(ids);
  }

  lemma NotStorable(syntax: Syntax, one: Asked, entryKind: string)
    requires KindOf(one.kind).Some? && StoredId(syntax, one, entryKind).value == ""
    ensures !Storable(syntax, one, entryKind)
  {
    forall id ensures !StoredAs(syntax, one, entryKind, id) {
      StoredSays(syntax, one, entryKind, id);
    }
  }

  lemma UnknownGrows(asked: seq<Asked>, n: nat)
    requires n < |asked|
    ensures |UnknownTypes(asked, n + 1)| == |UnknownTypes(asked, n)| + if asked[n].kind in TYPES then 0 else 1
  {
    assert UnknownTypes(asked, n + 1) == UnknownTypes(asked, n) + if asked[n].kind in TYPES then {} else {n};
  }

  method SeenGrows(ids: seq<Identifier>, seen: set<string>, id: Identifier) returns (more: set<string>)
    requires KeysSeen(ids, seen)
    ensures more == seen + {Key(id)} && KeysSeen(ids + [id], more)
  {
    more := seen + {Key(id)};
    ghost var after := ids + [id];
    assert Key(after[|ids|]) == Key(id);
    forall key | key in seen ensures exists k :: 0 <= k < |after| && Key(after[k]) == key {
      var k :| 0 <= k < |ids| && Key(ids[k]) == key;
      assert Key(after[k]) == key;
    }
  }

  lemma StoredIsNormalised(syntax: Syntax, asked: seq<Asked>, order: OrderNames, entryKind: string)
    requires CaseBlind(syntax)
    requires ReadAs(syntax, asked, entryKind, order.identifiers)
    ensures Normalised(syntax, order)
  {
    forall id | id in order.identifiers && !id.kind.PermanentIdentifier?
      ensures Acceptable(syntax, id.kind, id.value)
      ensures id.kind.Dns? || id.kind.Ip? ==> Text.Lower(id.value) == id.value
    {
      var i :| 0 <= i < |order.identifiers| && order.identifiers[i] == id;
      assert StoredAs(syntax, asked[i], entryKind, id);
      Text.LowerIdempotent(asked[i].value);
    }
  }

  /** What new-order stores, its own client can finalize: a CSR made from the
      order's identifiers is accepted. */
  lemma OrderCanBeFinalized(syntax: Syntax, asked: seq<Asked>, order: OrderNames, csr: Csr, entryKind: string)
    requires CaseBlind(syntax)
    requires ReadAs(syntax, asked, entryKind, order.identifiers)
    requires MadeFrom(syntax, csr, order, entryKind)
    ensures NamesExactly(syntax, csr, order, entryKind)
  {
    StoredIsNormalised(syntax, asked, order, entryKind);
    ExactCsrAccepted(syntax, csr, order, entryKind);
  }

  /** A CSR that spells what was asked for, a host name or an e-mail address in any
      case, and nothing else. */
  ghost predicate SpeltAsAsked(syntax: Syntax, asked: seq<Asked>, csr: Csr)
  {
    && (forall v :: v in csr.dns ==> exists i :: 0 <= i < |asked| && InCase(asked[i], "dns", v))
    && (forall v :: v in csr.emails ==>
          syntax.email(v) && exists i :: 0 <= i < |asked| && InCase(asked[i], "email", v))
    && (forall v :: v in csr.ips ==> Asked("ip", v) in asked)
    && (forall i :: 0 <= i < |asked| ==> SpeltIn(asked[i], csr))
    && csr.uris == [] && csr.upns == [] && csr.commonName == ""
  }

  predicate SpeltIn(one: Asked, csr: Csr)
  {
    || (exists v :: v in csr.dns && InCase(one, "dns", v))
    || (exists v :: v in csr.emails && InCase(one, "email", v))
    || (one.kind == "ip" && one.value in csr.ips)
  }

  /** And one that spells them as they were asked for, in whatever case. */
  lemma AskedInAnyCase(syntax: Syntax, asked: seq<Asked>, order: OrderNames, csr: Csr, entryKind: string)
    requires ReadAs(syntax, asked, entryKind, order.identifiers) && SpeltAsAsked(syntax, asked, csr)
    ensures NamesExactly(syntax, csr, order, entryKind)
  {
    var ids := order.identifiers;
    forall v | v in csr.dns ensures Acceptable(syntax, Dns, v) && exists own :: own in ids && Spells(Dns, v, own) {
      var i :| 0 <= i < |asked| && InCase(asked[i], "dns", v);
      SpelledAsAsked(syntax, asked[i], entryKind, ids[i], v);
    }
    forall v | v in csr.emails ensures Acceptable(syntax, Email, v) && exists own :: own in ids && Spells(Email, v, own)
    {
      var i :| 0 <= i < |asked| && InCase(asked[i], "email", v);
      SpelledAsAsked(syntax, asked[i], entryKind, ids[i], v);
    }
    AskedAddresses(syntax, asked, csr, order, entryKind);
    forall own | own in ids ensures NamedInCsr(syntax, csr, order, entryKind, own) {
      var i :| 0 <= i < |ids| && ids[i] == own;
      AskedIsNamed(syntax, asked[i], csr, order, entryKind, own);
    }
  }

  lemma AskedAddresses(syntax: Syntax, asked: seq<Asked>, csr: Csr, order: OrderNames, entryKind: string)
    requires ReadAs(syntax, asked, entryKind, order.identifiers)
    requires forall v :: v in csr.ips ==> Asked("ip", v) in asked
    ensures AllSpell(syntax, Ip, csr.ips, order)
  {
    forall v | v in csr.ips
      ensures Acceptable(syntax, Ip, v) && exists own :: own in order.identifiers && Spells(Ip, v, own)
    {
      var i :| 0 <= i < |asked| && asked[i] == Asked("ip", v);
      assert StoredAs(syntax, asked[i], entryKind, order.identifiers[i]);
      assert Spells(Ip, v, order.identifiers[i]);
    }
  }

  predicate InCase(one: Asked, kind: string, v: string)
  {
    one.kind == kind && Text.Lower(one.value) == Text.Lower(v)
  }

  lemma SpelledAsAsked(syntax: Syntax, one: Asked, entryKind: string, own: Identifier, v: string)
    requires StoredAs(syntax, one, entryKind, own)
    requires InCase(one, "dns", v) || (InCase(one, "email", v) && syntax.email(v))
    ensures Acceptable(syntax, own.kind, v) && Spells(own.kind, v, own)
    ensures own.kind == if one.kind == "dns" then Dns else Email
  {
    assert |Text.Lower(one.value)| == |Text.Lower(v)|;
    Text.LowerIdempotent(one.value);
  }

  lemma AskedIsNamed(syntax: Syntax, one: Asked, csr: Csr, order: OrderNames, entryKind: string, own: Identifier)
    requires StoredAs(syntax, one, entryKind, own)
    requires forall v :: v in csr.emails ==> syntax.email(v)
    requires SpeltIn(one, csr)
    ensures NamedInCsr(syntax, csr, order, entryKind, own)
  {
    if v :| v in csr.dns && InCase(one, "dns", v) {
      SpelledAsAsked(syntax, one, entryKind, own, v);
    } else if v :| v in csr.emails && InCase(one, "email", v) {
      SpelledAsAsked(syntax, one, entryKind, own, v);
    } else {
      assert Spells(Ip, one.value, own);
    }
  }

  /** And there is such a CSR: new-order stores no permanent identifier but the
      account's own entry's, and a URI names that. */
  lemma StoredOrderIsFinalizable(syntax: Syntax, asked: seq<Asked>, order: OrderNames, entry: Entry, uri: string)
    requires CaseBlind(syntax)
    requires ReadAs(syntax, asked, entry.kind, order.identifiers)
    requires forall id :: id in order.identifiers && id.kind.PermanentIdentifier? ==> id.value == entry.id
    requires syntax.entryFromUri(uri) == Some(entry)
    ensures exists csr :: NamesExactly(syntax, csr, order, entry.kind)
  {
    forall id | id in order.identifiers && id.kind.PermanentIdentifier?
      ensures !Unnamed(syntax, order, entry.kind, id)
    {
      assert UriNames(syntax, uri, entry.kind, id);
    }
    StoredIsNormalised(syntax, asked, order, entry.kind);
    FinalizableIff(syntax, order, entry.kind);
  }
}
