/** A console role is an ordinary directory group. This is what granting and
    revoking it do to the group's attributes, and what they leave alone. */
module Roster {
  import opened Basics
  import opened Wrappers
  import Text

  /** A stored entry's attributes, by lower-case name. */
  type Attributes = map<string, seq<string>>

  /** What is asked of the directory: where a name's own entry is, whether
      there is an entry at a DN, and the container people are in. */
  datatype People = People(entryOf: string -> Option<string>, present: string -> bool, usersDn: string)

  const MEMBER_ATTRIBUTES := ["member", "uniquemember", "memberuid"]
  const NOT_WRITTEN_BACK := ["entrydn", "createtimestamp", "modifytimestamp"]

  function NormalizeDn(dn: string): string
  {
    NormalizeParts(Text.Split(dn, ','))
  }

  function NormalizeParts(parts: seq<string>): string
  {
    if parts == [] then ""
    else if |parts| == 1 then Text.Lower(Text.Trim(parts[0]))
    else Text.Lower(Text.Trim(parts[0])) + "," + NormalizeParts(parts[1..])
  }

  /** A part of a DN, with what does not tell it from another taken off. */
  function Part(part: string): string
  {
    Text.Lower(Text.Trim(part))
  }

  function Parts(parts: seq<string>): seq<string>
  {
    seq(|parts|, i requires 0 <= i < |parts| => Part(parts[i]))
  }

  lemma {:induction false} NormalizedIsJoined(parts: seq<string>)
    ensures NormalizeParts(parts) == Text.Join(Parts(parts), ',')
  {
    if |parts| > 1 {
      NormalizedIsJoined(parts[1..]);
      assert Parts(parts)[1..] == Parts(parts[1..]);
    }
  }

  lemma NormalizedSplits(dn: string)
    ensures Text.Split(NormalizeDn(dn), ',') == Parts(Text.Split(dn, ','))
  {
    var parts := Text.Split(dn, ',');
    forall i | 0 <= i < |parts| ensures ',' !in Part(parts[i]) {
      Text.TrimKeeps(parts[i]);
      assert parts[i] in parts;
    }
    NormalizedIsJoined(parts);
    Text.SplitJoin(Parts(parts), ',');
  }

  /** Two spellings are one DN exactly if part by part they are one but for case and
      the white space around. */
  lemma SameDn(a: string, b: string)
    ensures NormalizeDn(a) == NormalizeDn(b) <==>
            && |Text.Split(a, ',')| == |Text.Split(b, ',')|
            && forall i :: 0 <= i < |Text.Split(a, ',')| ==>
                 Text.Lower(Text.Trim(Text.Split(a, ',')[i])) == Text.Lower(Text.Trim(Text.Split(b, ',')[i]))
  {
    NormalizedSplits(a);
    NormalizedSplits(b);
    var p, q := Text.Split(a, ','), Text.Split(b, ',');
    NormalizedIsJoined(p);
    NormalizedIsJoined(q);
    assert forall i :: 0 <= i < |p| ==> Parts(p)[i] == Text.Lower(Text.Trim(p[i]));
    assert forall i :: 0 <= i < |q| ==> Parts(q)[i] == Text.Lower(Text.Trim(q[i]));
    if |p| == |q| && forall i :: 0 <= i < |p| ==> Text.Lower(Text.Trim(p[i])) == Text.Lower(Text.Trim(q[i])) {
      assert Parts(p) == Parts(q);
    }
  }

  /** The DN a membership value means: a `memberUid` names a person by uid. */
  function MeantDn(people: People, attribute: string, value: string): string
  {
    if attribute == "memberuid" then "uid=" + value + "," + people.usersDn else value
  }

  datatype Member = Member(attribute: string, value: string, dn: string, present: bool)

  function MembersIn(people: People, attribute: string, values: seq<string>): seq<Member>
  {
    seq(|values|, i requires 0 <= i < |values| =>
      var dn := MeantDn(people, attribute, values[i]);
      Member(attribute, values[i], dn, people.present(dn)))
  }

  function ValuesOf(attributes: Attributes, attribute: string): seq<string>
  {
    if attribute in attributes then attributes[attribute] else []
  }

  /** Every membership value, attribute by attribute. */
  function Members(people: People, attributes: Attributes): seq<Member>
  {
    MembersIn(people, "member", ValuesOf(attributes, "member"))
    + MembersIn(people, "uniquemember", ValuesOf(attributes, "uniquemember"))
    + MembersIn(people, "memberuid", ValuesOf(attributes, "memberuid"))
  }

  function TargetDn(people: People, name: string): string
  {
    var found := people.entryOf(name);
    if found.Some? then found.value else "uid=" + name + "," + people.usersDn
  }

  /** Is this membership value this person? A `memberUid` is compared by name,
      a DN by what it is and by what it resolved to. */
  predicate Hits(people: People, member: Member, name: string)
  {
    if member.attribute == "memberuid" then
      Text.Lower(Text.Trim(member.value)) == Text.Lower(Text.Trim(name))
    else
      || NormalizeDn(member.value) == NormalizeDn(TargetDn(people, name))
      || (member.present && NormalizeDn(member.dn) == NormalizeDn(TargetDn(people, name)))
  }

  /** `memberIndex`: where the person is in the group. */
  method MemberIndex(people: People, members: seq<Member>, name: string) returns (hits: seq<nat>)
    ensures forall k :: 0 <= k < |hits| ==> hits[k] < |members|
    ensures forall i :: 0 <= i < |members| ==> (i in hits <==> Hits(people, members[i], name))
  {
    hits := [];
    for i := 0 to |members|
      invariant forall k :: k in hits ==> k < i && Hits(people, members[k], name)
      invariant forall k :: 0 <= k < i && Hits(people, members[k], name) ==> k in hits
    {
      if Hits(people, members[i], name) {
        hits := hits + [i];
      }
    }
    assert forall k :: 0 <= k < |hits| ==> hits[k] in hits;
  }

  predicate Holds(people: People, attributes: Attributes, name: string)
  {
    exists m :: m in Members(people, attributes) && Hits(people, m, name)
  }

  // ----- what a write carries ------------------------------------------------

  /** Everything but the operational attributes. */
  function Writable(attributes: Attributes): Attributes
  {
    map a | a in attributes && a !in NOT_WRITTEN_BACK :: attributes[a]
  }

  /** Is a value of an attribute this person? */
  predicate Names(people: People, attribute: string, value: string, name: string)
  {
    var dn := MeantDn(people, attribute, value);
    attribute in MEMBER_ATTRIBUTES && Hits(people, Member(attribute, value, dn, people.present(dn)), name)
  }

  /** The values a test does not take out, in order. */
  function Filtered<T>(values: seq<T>, out: T -> bool): seq<T>
  {
    if values == [] then []
    else (if out(values[0]) then [] else [values[0]]) + Filtered(values[1..], out)
  }

  lemma {:induction false} FilteredExact<T>(values: seq<T>, out: T -> bool)
    ensures forall v :: v in Filtered(values, out) <==> v in values && !out(v)
    ensures (forall v :: v in values ==> !out(v)) ==> Filtered(values, out) == values
    ensures Filtered(values, out) == [] <==> forall v :: v in values ==> out(v)
  {
    if values != [] {
      FilteredExact(values[1..], out);
      assert values == [values[0]] + values[1..];
    }
  }

  lemma FilteredCons<T>(x: T, values: seq<T>, out: T -> bool)
    ensures Filtered([x] + values, out) == (if out(x) then [] else [x]) + Filtered(values, out)
  {
    assert ([x] + values)[1..] == values;
  }

  lemma {:induction false} FilteredConcat<T>(a: seq<T>, b: seq<T>, out: T -> bool)
    ensures Filtered(a + b, out) == Filtered(a, out) + Filtered(b, out)
  {
    if a == [] {
      assert a + b == b;
    } else {
      var x, rest := a[0], a[1..];
      FilteredConcat(rest, b, out);
      FilteredCons(x, rest + b, out);
      FilteredCons(x, rest, out);
      assert a == [x] + rest;
      Associative([x], rest, b);
      Associative(if out(x) then [] else [x], Filtered(rest, out), Filtered(b, out));
    }
  }

  lemma {:induction false} FilteredTwice<T>(values: seq<T>, first: T -> bool, second: T -> bool, both: T -> bool)
    requires forall v :: v in values ==> (both(v) <==> first(v) || second(v))
    ensures Filtered(Filtered(values, first), second) == Filtered(values, both)
  {
    if values != [] {
      FilteredTwice(values[1..], first, second, both);
      FilteredConcat(if first(values[0]) then [] else [values[0]], Filtered(values[1..], first), second);
      assert values[0] in values;
    }
  }

  lemma {:induction false} FilteredAlike<T>(values: seq<T>, one: T -> bool, other: T -> bool)
    requires forall v :: v in values ==> (one(v) <==> other(v))
    ensures Filtered(values, one) == Filtered(values, other)
  {
    if values != [] {
      FilteredAlike(values[1..], one, other);
      assert values[0] in values;
    }
  }

  function Others(people: People, attribute: string, values: seq<string>, name: string): seq<string>
  {
    Filtered(values, NamesIn(people, attribute, name))
  }

  function NamesIn(people: People, attribute: string, name: string): string -> bool
  {
    v => Names(people, attribute, v, name)
  }

  /** What a revoke leaves: of each attribute the values that are not this
      person, in order; an attribute that held only this person goes. */
  function Revoked(people: People, attributes: Attributes, name: string): Attributes
  {
    map a | a in attributes && a !in NOT_WRITTEN_BACK && !OnlyNames(people, a, attributes[a], name)
      :: Others(people, a, attributes[a], name)
  }

  predicate OnlyNames(people: People, attribute: string, values: seq<string>, name: string)
  {
    values != [] && forall v :: v in values ==> Names(people, attribute, v, name)
  }

  function Granted(people: People, attributes: Attributes, name: string): Attributes
  {
    var kept := Writable(attributes);
    kept["member" := ValuesOf(kept, "member") + [TargetDn(people, name)]]
  }

  function NewGroup(people: People, role: string, cn: string, name: string): Attributes
  {
    map["objectclass" := ["top", "groupOfNames"],
        "cn" := [cn],
        "description" := ["The " + role + " role for this service's admin console."],
        "member" := [TargetDn(people, name)]]
  }

  // ----- the two acts ---------------------------------------------------------

  datatype Outcome = Unchanged | Written(attributes: Attributes) | ByClaim

  function GrantOutcome(people: People, existing: Option<Attributes>, role: string, cn: string, name: string): Outcome
  {
    if existing.None? then Written(NewGroup(people, role, cn, name))
    else if Holds(people, existing.value, name) then Unchanged
    else Written(Granted(people, existing.value, name))
  }

  /** `claimed` says whether the person names the group on their own entry. */
  function RevokeOutcome(people: People, existing: Option<Attributes>, name: string, claimed: bool): Outcome
  {
    if existing.Some? && Holds(people, existing.value, name) then Written(Revoked(people, existing.value, name))
    else if existing.Some? && claimed then ByClaim
    else Unchanged
  }

  method Grant(people: People, existing: Option<Attributes>, role: string, cn: string, name: string)
    returns (outcome: Outcome)
    ensures outcome == GrantOutcome(people, existing, role, cn, name)
  {
    if existing.Some? {
      var members := Members(people, existing.value);
      var hits := MemberIndex(people, members, name);
      if |hits| > 0 {
        assert members[hits[0]] in members && hits[0] in hits;
        return Unchanged;
      }
      forall m | m in members ensures !Hits(people, m, name) {
        var i :| 0 <= i < |members| && members[i] == m;
        assert i !in hits;
      }
      return Written(Granted(people, existing.value, name));
    }
    outcome := Written(NewGroup(people, role, cn, name));
  }

  /** One value of one attribute taken out, wherever it stands in it. */
  function WithoutValue(values: seq<string>, gone: string): seq<string>
  {
    Filtered(values, Is(gone))
  }

  function Is(value: string): string -> bool
  {
    v => v == value
  }

  function GoneFrom(attribute: string, gone: set<(string, string)>): string -> bool
  {
    v => (attribute, v) in gone
  }

  function TakenOut(attributes: Attributes, attribute: string, gone: string): Attributes
  {
    if attribute !in attributes then attributes
    else
      var left := WithoutValue(attributes[attribute], gone);
      if left == [] then attributes - {attribute} else attributes[attribute := left]
  }

  /** The attributes without a set of values. */
  function Left(values: seq<string>, attribute: string, gone: set<(string, string)>): seq<string>
  {
    Filtered(values, GoneFrom(attribute, gone))
  }

  predicate AllGone(values: seq<string>, attribute: string, gone: set<(string, string)>)
  {
    values != [] && forall v :: v in values ==> (attribute, v) in gone
  }

  function Without(attributes: Attributes, gone: set<(string, string)>): Attributes
  {
    map a | a in attributes && !AllGone(attributes[a], a, gone) :: Left(attributes[a], a, gone)
  }

  lemma WithoutNothing(attributes: Attributes)
    ensures Without(attributes, {}) == attributes
  {
    forall a | a in attributes ensures !AllGone(attributes[a], a, {}) && Left(attributes[a], a, {}) == attributes[a] {
      FilteredExact(attributes[a], GoneFrom(a, {}));
      if attributes[a] != [] {
        assert attributes[a][0] in attributes[a];
      }
    }
  }

  lemma LeftOneMore(values: seq<string>, attribute: string, gone: set<(string, string)>, v: string)
    ensures var more := Left(values, attribute, gone + {(attribute, v)});
            && WithoutValue(Left(values, attribute, gone), v) == more
            && (more == [] <==> forall x :: x in values ==> (attribute, x) in gone + {(attribute, v)})
    ensures Left(values, attribute, gone) == [] <==> forall x :: x in values ==> (attribute, x) in gone
  {
    var first, both := GoneFrom(attribute, gone), GoneFrom(attribute, gone + {(attribute, v)});
    FilteredTwice(values, first, Is(v), both);
    FilteredExact(values, first);
    FilteredExact(values, both);
  }

  lemma LeftElsewhere(attributes: Attributes, attribute: string, gone: set<(string, string)>, v: string, a: string)
    requires a in attributes && a != attribute
    ensures SameAt(Without(attributes, gone + {(attribute, v)}), Without(attributes, gone), a)
  {
    FilteredAlike(attributes[a], GoneFrom(a, gone + {(attribute, v)}), GoneFrom(a, gone));
  }

  /** Taking one value out of what is left is leaving it out from the start. */
  lemma TakeOneMore(attributes: Attributes, gone: set<(string, string)>, attribute: string, v: string)
    requires attribute in attributes && v in attributes[attribute]
    ensures TakenOut(Without(attributes, gone), attribute, v) == Without(attributes, gone + {(attribute, v)})
  {
    var taken, fewer := TakenOut(Without(attributes, gone), attribute, v), Without(attributes, gone + {(attribute, v)});
    forall a ensures SameAt(taken, fewer, a) {
      if a in attributes {
        if a == attribute {
          LeftOneMore(attributes[a], a, gone, v);
        } else {
          LeftElsewhere(attributes, attribute, gone, v, a);
        }
      }
    }
    SameEverywhere(taken, fewer);
  }

  predicate TakesExactly(people: People, attributes: Attributes, name: string, gone: set<(string, string)>)
  {
    && (forall a :: a in attributes ==> forall v :: v in attributes[a] ==>
          ((a, v) in gone <==> Names(people, a, v, name)))
  }

  lemma WithoutIsRevoked(people: People, attributes: Attributes, name: string, gone: set<(string, string)>)
    requires TakesExactly(people, Writable(attributes), name, gone)
    ensures Without(Writable(attributes), gone) == Revoked(people, attributes, name)
  {
    var w := Writable(attributes);
    forall a | a in w
      ensures AllGone(w[a], a, gone) <==> OnlyNames(people, a, w[a], name)
      ensures Left(w[a], a, gone) == Others(people, a, w[a], name)
    {
      FilteredAlike(w[a], GoneFrom(a, gone), NamesIn(people, a, name));
    }
  }

  lemma MemberIsValue(people: People, attributes: Attributes, m: Member)
    ensures m in Members(people, attributes) <==>
            && m.attribute in MEMBER_ATTRIBUTES && m.attribute in attributes && m.value in attributes[m.attribute]
            && m.dn == MeantDn(people, m.attribute, m.value) && m.present == people.present(m.dn)
  {
    MembersInValues(people, "member", ValuesOf(attributes, "member"), m);
    MembersInValues(people, "uniquemember", ValuesOf(attributes, "uniquemember"), m);
    MembersInValues(people, "memberuid", ValuesOf(attributes, "memberuid"), m);
  }

  lemma MembersInValues(people: People, attribute: string, values: seq<string>, m: Member)
    ensures m in MembersIn(people, attribute, values) <==>
            && m.attribute == attribute && m.value in values
            && m.dn == MeantDn(people, attribute, m.value) && m.present == people.present(m.dn)
  {
    var members := MembersIn(people, attribute, values);
    if m.attribute == attribute && m.value in values && m.dn == MeantDn(people, attribute, m.value)
       && m.present == people.present(m.dn)
    {
      var i :| 0 <= i < |values| && values[i] == m.value;
      assert members[i] == m;
    }
  }

  ghost function Pairs(members: seq<Member>): set<(string, string)>
  {
    set m | m in members :: (m.attribute, m.value)
  }

  /** The values a revoke takes: those of the members that are this person. */
  function HitValues(people: People, attributes: Attributes, name: string): set<(string, string)>
  {
    set m | m in Members(people, attributes) && Hits(people, m, name) :: (m.attribute, m.value)
  }

  lemma HitValuesExact(people: People, attributes: Attributes, name: string)
    ensures TakesExactly(people, Writable(attributes), name, HitValues(people, attributes, name))
  {
    forall a, v | a in Writable(attributes) && v in attributes[a]
      ensures (a, v) in HitValues(people, attributes, name) <==> Names(people, a, v, name)
    {
      var dn := MeantDn(people, a, v);
      MemberIsValue(people, attributes, Member(a, v, dn, people.present(dn)));
      if (a, v) in HitValues(people, attributes, name) {
        var m :| m in Members(people, attributes) && Hits(people, m, name) && (m.attribute, m.value) == (a, v);
        MemberIsValue(people, attributes, m);
      }
    }
  }

  method TakeValue(attributes: Attributes, attribute: string, gone: string) returns (left: Attributes)
    ensures left == TakenOut(attributes, attribute, gone)
  {
    left := attributes;
    if attribute in left {
      var rest := WithoutValue(left[attribute], gone);
      if rest == [] {
        left := left - {attribute};
      } else {
        left := left[attribute := rest];
      }
    }
  }

  /** The group after a revoke: the values go one hit at a time, each from the
      attribute it came from, and an attribute goes with its last value. */
  method TakeOut(writable: Attributes, removed: seq<Member>) returns (left: Attributes)
    requires forall m :: m in removed ==> m.attribute in writable && m.value in writable[m.attribute]
    ensures left == Without(writable, Pairs(removed))
  {
    left := writable;
    WithoutNothing(left);
    ghost var gone: set<(string, string)> := {};
    for i := 0 to |removed|
      invariant gone == Pairs(removed[..i]) && left == Without(writable, gone)
    {
      left := TakeNext(writable, left, removed[i], gone);
      PairsGrow(removed, i);
      gone := gone + {(removed[i].attribute, removed[i].value)};
    }
    assert removed[..|removed|] == removed;
  }

  method TakeNext(ghost writable: Attributes, left: Attributes, m: Member, ghost gone: set<(string, string)>)
    returns (fewer: Attributes)
    requires m.attribute in writable && m.value in writable[m.attribute] && left == Without(writable, gone)
    ensures fewer == Without(writable, gone + {(m.attribute, m.value)})
  {
    TakeOneMore(writable, gone, m.attribute, m.value);
    fewer := TakeValue(left, m.attribute, m.value);
  }

  lemma PairsGrow(members: seq<Member>, i: nat)
    requires i < |members|
    ensures Pairs(members[..i + 1]) == Pairs(members[..i]) + {(members[i].attribute, members[i].value)}
  {
    assert members[..i + 1] == members[..i] + [members[i]];
  }

  method Revoke(people: People, existing: Option<Attributes>, name: string, claimed: bool)
    returns (outcome: Outcome)
    ensures outcome == RevokeOutcome(people, existing, name, claimed)
  {
    if existing.None? {
      return Unchanged;
    }
    var members := Members(people, existing.value);
    var hits := MemberIndex(people, members, name);
    if |hits| == 0 {
      forall m | m in members ensures !Hits(people, m, name) {
        var i :| 0 <= i < |members| && members[i] == m;
        assert i !in hits;
      }
      return if claimed then ByClaim else Unchanged;
    }
    assert members[hits[0]] in members && hits[0] in hits;
    var removed := Picked(people, members, hits, name);
    var left := TakeOutHits(people, existing.value, removed, name);
    outcome := Written(left);
  }

  method TakeOutHits(people: People, attributes: Attributes, removed: seq<Member>, name: string)
    returns (left: Attributes)
    requires forall m :: m in removed <==> m in Members(people, attributes) && Hits(people, m, name)
    ensures left == Revoked(people, attributes, name)
  {
    forall m | m in removed
      ensures m.attribute in Writable(attributes) && m.value in Writable(attributes)[m.attribute]
    {
      MemberIsValue(people, attributes, m);
    }
    left := TakeOut(Writable(attributes), removed);
    assert Pairs(removed) == HitValues(people, attributes, name);
    HitValuesExact(people, attributes, name);
    WithoutIsRevoked(people, attributes, name, Pairs(removed));
  }

  method Picked(people: People, members: seq<Member>, hits: seq<nat>, name: string) returns (removed: seq<Member>)
    requires forall k :: 0 <= k < |hits| ==> hits[k] < |members|
    requires forall i :: 0 <= i < |members| ==> (i in hits <==> Hits(people, members[i], name))
    ensures forall m :: m in removed <==> m in members && Hits(people, m, name)
  {
    removed := seq(|hits|, k requires 0 <= k < |hits| => members[hits[k]]);
    forall m | m in members && Hits(people, m, name) ensures m in removed {
      var i :| 0 <= i < |members| && members[i] == m;
      assert i in hits;
      var k :| 0 <= k < |hits| && hits[k] == i;
      assert removed[k] == m;
    }
    forall m | m in removed ensures m in members && Hits(people, m, name) {
      var k :| 0 <= k < |hits| && removed[k] == m;
      assert hits[k] in hits;
    }
  }

  // ----- what the two acts mean ------------------------------------------------

  lemma OthersExact(people: People, attribute: string, values: seq<string>, name: string)
    ensures forall v :: v in Others(people, attribute, values, name) <==>
              v in values && !Names(people, attribute, v, name)
    ensures (forall v :: v in values ==> !Names(people, attribute, v, name)) ==>
              Others(people, attribute, values, name) == values
    ensures Others(people, attribute, values, name) == [] <==>
              forall v :: v in values ==> Names(people, attribute, v, name)
  {
    FilteredExact(values, NamesIn(people, attribute, name));
  }

  lemma HoldsIffNamed(people: People, attributes: Attributes, name: string)
    ensures Holds(people, attributes, name) <==>
            exists a, v :: a in attributes && v in attributes[a] && Names(people, a, v, name)
  {
    if Holds(people, attributes, name) {
      var m :| m in Members(people, attributes) && Hits(people, m, name);
      MemberIsValue(people, attributes, m);
      assert Names(people, m.attribute, m.value, name);
    }
    if a, v :| a in attributes && v in attributes[a] && Names(people, a, v, name) {
      var dn := MeantDn(people, a, v);
      MemberIsValue(people, attributes, Member(a, v, dn, people.present(dn)));
    }
  }

  /** A grant that writes adds the person's own DN, or where they have no entry the one
      their uid would have, behind the members there were, and changes nothing else;
      the directory's own three attributes are not written back. */
  lemma GrantWrites(people: People, attributes: Attributes, name: string, a: string)
    requires GrantOutcome(people, Some(attributes), "", "", name).Written?
    ensures var after := GrantOutcome(people, Some(attributes), "", "", name).attributes;
            var target := if people.entryOf(name).Some? then people.entryOf(name).value
                          else "uid=" + name + "," + people.usersDn;
            && (a in after <==>
                  a == "member"
                  || (a in attributes && a != "entrydn" && a != "createtimestamp" && a != "modifytimestamp"))
            && "member" in after
            && after["member"] == (if "member" in attributes then attributes["member"] else []) + [target]
            && (a in after && a != "member" ==> after[a] == attributes[a])
  {
  }

  /** A new group holds the person alone, under the name the setting gives it. */
  lemma NewGroupIs(people: People, role: string, cn: string, name: string)
    ensures var made := GrantOutcome(people, None, role, cn, name);
            && made.Written?
            && made.attributes.Keys == {"objectclass", "cn", "description", "member"}
            && made.attributes["cn"] == [cn] && made.attributes["objectclass"] == ["top", "groupOfNames"]
            && made.attributes["member"] == [TargetDn(people, name)]
  {
  }

  /** After a revoke nothing of the group names the person. */
  lemma RevokeRemoves(people: People, attributes: Attributes, name: string)
    ensures !Holds(people, Revoked(people, attributes, name), name)
  {
    var left := Revoked(people, attributes, name);
    HoldsIffNamed(people, left, name);
    forall a, v | a in left && v in left[a] ensures !Names(people, a, v, name) {
      OthersExact(people, a, attributes[a], name);
    }
  }

  /** Of every other value of every attribute a write carries, nothing is lost,
      moved or added; an attribute goes only when it held this person alone. */
  lemma RevokeSpares(people: People, attributes: Attributes, name: string, a: string)
    requires a in Writable(attributes)
    ensures var left := ValuesOf(Revoked(people, attributes, name), a);
            && left == Others(people, a, attributes[a], name)
            && (forall v :: v in left <==> v in attributes[a] && !Names(people, a, v, name))
            && (a !in MEMBER_ATTRIBUTES ==> a in Revoked(people, attributes, name) && left == attributes[a])
  {
    OthersExact(people, a, attributes[a], name);
    if attributes[a] != [] {
      assert attributes[a][0] in attributes[a];
    }
  }

  lemma GrantIsHeld(people: People, attributes: Attributes, name: string)
    ensures Holds(people, Granted(people, attributes, name), name)
    ensures forall role, cn :: Holds(people, NewGroup(people, role, cn, name), name)
  {
    TargetIsNamed(people, name);
    HoldsIffNamed(people, Granted(people, attributes, name), name);
    forall role, cn ensures Holds(people, NewGroup(people, role, cn, name), name) {
      var g := NewGroup(people, role, cn, name);
      HoldsIffNamed(people, g, name);
      assert "member" in g && TargetDn(people, name) in g["member"];
    }
  }

  lemma TargetIsNamed(people: People, name: string)
    ensures Names(people, "member", TargetDn(people, name), name)
  {
  }

  /** A grant taken back restores the group exactly, unless it had a "member"
      attribute with no value, which goes. */
  lemma GrantThenRevoke(people: People, attributes: Attributes, name: string)
    requires !Holds(people, attributes, name)
    ensures Revoked(people, Granted(people, attributes, name), name) == Writable(attributes) <==>
            !("member" in attributes && attributes["member"] == [])
  {
    var kept := Writable(attributes);
    var left := Revoked(people, Granted(people, attributes, name), name);
    forall a | a != "member" ensures SameAt(left, kept, a) {
      BackElsewhere(people, attributes, name, a);
    }
    BackAtMember(people, attributes, name);
    SameEverywhere(left, kept);
  }

  lemma SameEverywhere(left: Attributes, kept: Attributes)
    ensures left == kept <==> forall a :: SameAt(left, kept, a)
  {
    if forall a :: SameAt(left, kept, a) {
      forall a ensures a in left <==> a in kept {
        assert SameAt(left, kept, a);
      }
      forall a | a in left ensures left[a] == kept[a] {
        assert SameAt(left, kept, a);
      }
    }
  }

  predicate SameAt(left: Attributes, kept: Attributes, a: string)
  {
    (a in left <==> a in kept) && (a in left && a in kept ==> left[a] == kept[a])
  }

  lemma BackElsewhere(people: People, attributes: Attributes, name: string, a: string)
    requires !Holds(people, attributes, name) && a != "member"
    ensures SameAt(Revoked(people, Granted(people, attributes, name), name), Writable(attributes), a)
  {
    if a in Writable(attributes) {
      HoldsIffNamed(people, attributes, name);
      OthersExact(people, a, attributes[a], name);
      if attributes[a] != [] {
        assert attributes[a][0] in attributes[a];
      }
    }
  }

  lemma BackAtMember(people: People, attributes: Attributes, name: string)
    requires !Holds(people, attributes, name)
    ensures SameAt(Revoked(people, Granted(people, attributes, name), name), Writable(attributes), "member") <==>
            !("member" in attributes && attributes["member"] == [])
  {
    var was := ValuesOf(Writable(attributes), "member");
    forall v | v in was ensures !Names(people, "member", v, name) {
      HoldsIffNamed(people, attributes, name);
    }
    OneMoreOut(people, was, name);
    if was != [] {
      assert was[0] in was + [TargetDn(people, name)];
    }
  }

  lemma OneMoreOut(people: People, was: seq<string>, name: string)
    requires forall v :: v in was ==> !Names(people, "member", v, name)
    ensures Others(people, "member", was + [TargetDn(people, name)], name) == was
  {
    TargetIsNamed(people, name);
    OthersExact(people, "member", was, name);
    var target := [TargetDn(people, name)];
    OthersExact(people, "member", target, name);
    FilteredConcat(was, target, NamesIn(people, "member", name));
  }

  /** A "member" attribute with no value is such a one. */
  lemma EmptyMemberGoes(people: People, name: string)
    ensures var group: Attributes := map["member" := []];
            && !Holds(people, group, name)
            && Revoked(people, Granted(people, group, name), name) != Writable(group)
  {
    var group: Attributes := map["member" := []];
    HoldsIffNamed(people, group, name);
    GrantThenRevoke(people, group, name);
  }

  /** Both are idempotent: a second call finds nothing to do. */
  lemma GrantTwice(people: People, existing: Option<Attributes>, role: string, cn: string, name: string)
    ensures var first := GrantOutcome(people, existing, role, cn, name);
            var after := if first.Written? then Some(first.attributes) else existing;
            GrantOutcome(people, after, role, cn, name) == Unchanged
  {
    if existing.Some? {
      GrantIsHeld(people, existing.value, name);
    } else {
      GrantIsHeld(people, map[], name);
    }
  }

  lemma RevokeTwice(people: People, existing: Option<Attributes>, name: string, claimed: bool)
    ensures var first := RevokeOutcome(people, existing, name, claimed);
            var after := if first.Written? then Some(first.attributes) else existing;
            && RevokeOutcome(people, after, name, claimed) == (if existing.Some? && claimed then ByClaim else Unchanged)
            && (after.Some? ==> !Holds(people, after.value, name))
  {
    if existing.Some? {
      RevokeRemoves(people, existing.value, name);
    }
  }

  // ----- who holds the role, as the directory answers it -----------------------

  /** The group lists a DN: what `groupsOfUser` looks a person up by. */
  predicate Lists(people: People, attributes: Attributes, dn: string)
  {
    exists m :: m in Members(people, attributes) && NormalizeDn(m.dn) == NormalizeDn(dn)
  }

  function DnValues(attributes: Attributes): seq<string>
  {
    ValuesOf(attributes, "member") + ValuesOf(attributes, "uniquemember")
  }

  /** A DN-valued attribute holds this DN, however it is spelled. */
  predicate ListsByDn(attributes: Attributes, dn: string)
  {
    exists v :: v in DnValues(attributes) && NormalizeDn(v) == NormalizeDn(dn)
  }

  predicate UidNamed(value: string, name: string)
  {
    Text.Lower(Text.Trim(value)) == Text.Lower(Text.Trim(name))
  }

  predicate UidAt(people: People, value: string, dn: string)
  {
    NormalizeDn("uid=" + value + "," + people.usersDn) == NormalizeDn(dn)
  }

  /** The two answers side by side: what a grant or revoke finds, and what the
      directory lists. They part only over `memberUid`, taken by name in the one
      and by entry in the other. */
  lemma FoundAndListed(people: People, attributes: Attributes, name: string)
    ensures var target, uids := TargetDn(people, name), ValuesOf(attributes, "memberuid");
            && (Holds(people, attributes, name) <==>
                  ListsByDn(attributes, target) || exists v :: v in uids && UidNamed(v, name))
            && (Lists(people, attributes, target) <==>
                  ListsByDn(attributes, target) || exists v :: v in uids && UidAt(people, v, target))
  {
    FoundIff(people, attributes, name);
    ListedIff(people, attributes, TargetDn(people, name));
  }

  lemma FoundIff(people: People, attributes: Attributes, name: string)
    ensures Holds(people, attributes, name) <==>
            ListsByDn(attributes, TargetDn(people, name))
            || exists v :: v in ValuesOf(attributes, "memberuid") && UidNamed(v, name)
  {
    HoldsIffNamed(people, attributes, name);
    if ListsByDn(attributes, TargetDn(people, name)) {
      var v :| v in DnValues(attributes)
               && NormalizeDn(v) == NormalizeDn(TargetDn(people, name));
      var a := if v in ValuesOf(attributes, "member") then "member" else "uniquemember";
      assert a in attributes && v in attributes[a] && Names(people, a, v, name);
    }
    if v :| v in ValuesOf(attributes, "memberuid") && UidNamed(v, name) {
      assert Names(people, "memberuid", v, name);
    }
    if a, v :| a in attributes && v in attributes[a] && Names(people, a, v, name) {
      assert a == "memberuid" ==> UidNamed(v, name);
      assert a != "memberuid" ==> v in DnValues(attributes);
    }
  }

  lemma ListedIff(people: People, attributes: Attributes, dn: string)
    ensures Lists(people, attributes, dn) <==>
            ListsByDn(attributes, dn) || exists v :: v in ValuesOf(attributes, "memberuid") && UidAt(people, v, dn)
  {
    if ListsByDn(attributes, dn) {
      var v :| v in DnValues(attributes) && NormalizeDn(v) == NormalizeDn(dn);
      var a := if v in ValuesOf(attributes, "member") then "member" else "uniquemember";
      MemberIsValue(people, attributes, Member(a, v, v, people.present(v)));
    }
    if v :| v in ValuesOf(attributes, "memberuid") && UidAt(people, v, dn) {
      var at := MeantDn(people, "memberuid", v);
      MemberIsValue(people, attributes, Member("memberuid", v, at, people.present(at)));
    }
    if m :| m in Members(people, attributes) && NormalizeDn(m.dn) == NormalizeDn(dn) {
      MemberIsValue(people, attributes, m);
      assert m.attribute == "memberuid" ==> UidAt(people, m.value, dn);
      assert m.attribute != "memberuid" ==> m.value in DnValues(attributes);
    }
  }

  /** So a grant can find its person already there, change nothing, and leave
      them unlisted: their name is a `memberUid`, and their entry is elsewhere. */
  lemma GrantFindsButUnlisted(people: People, name: string, dn: string)
    requires people.entryOf(name) == Some(dn) && !UidAt(people, name, dn)
    ensures Holds(people, map["memberuid" := [name]], name)
    ensures !Lists(people, map["memberuid" := [name]], TargetDn(people, name))
  {
    var group: Attributes := map["memberuid" := [name]];
    assert ValuesOf(group, "memberuid") == [name];
    FoundAndListed(people, group, name);
    assert name in ValuesOf(group, "memberuid") && UidNamed(name, name);
  }

  /** A `memberUid` under another name than the one given, that is this person. */
  predicate OtherUid(people: People, value: string, name: string)
  {
    && NormalizeDn("uid=" + value + "," + people.usersDn) == NormalizeDn(TargetDn(people, name))
    && Text.Lower(Text.Trim(value)) != Text.Lower(Text.Trim(name))
  }

  /** The group still lists a person whose role was revoked exactly when a
      `memberUid` value is that person under another of their names. */
  lemma StillListedIff(people: People, attributes: Attributes, name: string)
    ensures Lists(people, Revoked(people, attributes, name), TargetDn(people, name)) <==>
            exists v :: v in ValuesOf(attributes, "memberuid") && OtherUid(people, v, name)
  {
    var left := Revoked(people, attributes, name);
    if Lists(people, left, TargetDn(people, name)) {
      var m :| m in Members(people, left) && NormalizeDn(m.dn) == NormalizeDn(TargetDn(people, name));
      MemberIsValue(people, left, m);
      RevokeSpares(people, attributes, name, m.attribute);
      assert !Names(people, m.attribute, m.value, name);
      assert m.value in ValuesOf(attributes, "memberuid") && OtherUid(people, m.value, name);
    }
    if v :| v in ValuesOf(attributes, "memberuid") && OtherUid(people, v, name) {
      RevokeSpares(people, attributes, name, "memberuid");
      var dn := MeantDn(people, "memberuid", v);
      assert !Names(people, "memberuid", v, name);
      MemberIsValue(people, left, Member("memberuid", v, dn, people.present(dn)));
    }
  }

  /** A group that lists a person both ways, by their DN and by their uid. */
  function ListedTwice(dn: string, uid: string): Attributes
  {
    map["member" := [dn], "memberuid" := [uid]]
  }

  /** A person at `uid=<uid>` who answers to another name too: revoked by that
      name they go from `member` and stay in `memberUid`. */
  lemma RevokedByAnotherName(people: People, uid: string, name: string)
    requires people.entryOf(name) == Some("uid=" + uid + "," + people.usersDn)
    requires Text.Lower(Text.Trim(uid)) != Text.Lower(Text.Trim(name))
    ensures var group := ListedTwice("uid=" + uid + "," + people.usersDn, uid);
            && Holds(people, group, name)
            && Lists(people, Revoked(people, group, name), TargetDn(people, name))
  {
    var dn := "uid=" + uid + "," + people.usersDn;
    var group := ListedTwice(dn, uid);
    TargetIsNamed(people, name);
    assert dn in group["member"];
    HoldsIffNamed(people, group, name);
    assert uid in ValuesOf(group, "memberuid") && OtherUid(people, uid, name);
    StillListedIff(people, group, name);
  }

  /** Such people there are: `uid=a` answering to "b". */
  lemma ThereIsOne(people: People)
    requires people.usersDn == "ou=users" && people.entryOf("b") == Some("uid=a,ou=users")
    ensures var group := ListedTwice("uid=a,ou=users", "a");
            && Holds(people, group, "b")
            && Lists(people, Revoked(people, group, "b"), TargetDn(people, "b"))
  {
    assert "uid=" + "a" + "," + people.usersDn == "uid=a,ou=users";
    assert Text.Lower(Text.Trim("a"))[0] == 'a' && Text.Lower(Text.Trim("b"))[0] == 'b';
    RevokedByAnotherName(people, "a", "b");
  }
}
