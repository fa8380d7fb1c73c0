/** Who holds a console role and whether the console is open: read off the two
    role groups, from both ends of membership. */
module ConsoleRoles {
  import opened Wrappers
  import opened Roster
  import Text

  datatype Role = Read | Write

  datatype Settings = Settings(readGroup: string, writeGroup: string, bootstrapName: string, openWhenEmpty: bool)

  /** One realm's directory: its groups by normalized DN, and for every person
      whose own entry names groups in `memberOf` (by normalized DN) which. */
  datatype Directory = Directory(
    groups: map<string, Attributes>,
    people: People,
    claims: map<string, set<string>>,
    groupDnFor: string -> string,
    nameAt: string -> string,
    usernameAt: string -> string)

  /** The bootstrap administrator's entry, where there is one. */
  datatype Account = Account(bootstrapAdministrator: bool, consoleClaimed: bool)

  datatype Realm = Realm(directory: Directory, account: Option<Account>, product: bool)

  // ----- which groups are the roles' --------------------------------------------

  function GroupCn(s: Settings, role: Role): string
  {
    Text.Trim(if role == Read then s.readGroup else s.writeGroup)
  }

  /** Where the role's group is, normalized. */
  function GroupOf(s: Settings, d: Directory, role: Role): string
  {
    NormalizeDn(d.groupDnFor(GroupCn(s, role)))
  }

  function WithRole(wanted: map<string, Role>, s: Settings, d: Directory, role: Role): map<string, Role>
  {
    if GroupCn(s, role) == "" then wanted
    else wanted[Text.Lower(GroupCn(s, role)) := role][GroupOf(s, d, role) := role]
  }

  /** The role a group's name or DN stands for. */
  function Wanted(s: Settings, d: Directory): map<string, Role>
  {
    WithRole(WithRole(map[], s, d, Read), s, d, Write)
  }

  /** A role's group is known by its name and by its DN; where the two settings name
      one group it is the write group. */
  lemma WantedIs(s: Settings, d: Directory, key: string)
    ensures var writers, readers := GroupCn(s, Write), GroupCn(s, Read);
            var write := writers != "" && (key == Text.Lower(writers) || key == GroupOf(s, d, Write));
            var read := readers != "" && (key == Text.Lower(readers) || key == GroupOf(s, d, Read));
            && (key in Wanted(s, d) <==> write || read)
            && (key in Wanted(s, d) ==> Wanted(s, d)[key] == if write then Write else Read)
  {
  }

  function GroupName(d: Directory, g: string): string
    requires g in d.groups
  {
    var names := ValuesOf(d.groups[g], "cn");
    if names != [] && names[0] != "" then names[0] else d.nameAt(g)
  }

  /** A group's name is its first, and where it has none the one in its DN. */
  lemma GroupNameIs(d: Directory, g: string)
    requires g in d.groups
    ensures "cn" in d.groups[g] && d.groups[g]["cn"] != [] && d.groups[g]["cn"][0] != "" ==>
              GroupName(d, g) == d.groups[g]["cn"][0]
    ensures "cn" !in d.groups[g] || d.groups[g]["cn"] == [] || d.groups[g]["cn"][0] == "" ==>
              GroupName(d, g) == d.nameAt(g)
  {
  }

  function RoleOfGroup(s: Settings, d: Directory, g: string): Option<Role>
    requires g in d.groups
  {
    var wanted, name := Wanted(s, d), Text.Lower(Text.Trim(GroupName(d, g)));
    if name in wanted then Some(wanted[name])
    else if g in wanted then Some(wanted[g])
    else None
  }

  /** Being in the group is holding the role; Admin Write includes Admin Read. */
  predicate Gives(s: Settings, d: Directory, g: string, role: Role)
    requires g in d.groups
  {
    Implies(RoleOfGroup(s, d, g), role)
  }

  // ----- both ends of membership --------------------------------------------------

  predicate ClaimsGroup(d: Directory, name: string, g: string)
  {
    var entry := d.people.entryOf(name);
    entry.Some? && NormalizeDn(entry.value) in d.claims && g in d.claims[NormalizeDn(entry.value)]
  }

  predicate InGroup(d: Directory, name: string, g: string)
    requires g in d.groups
  {
    Lists(d.people, d.groups[g], TargetDn(d.people, name)) || ClaimsGroup(d, name, g)
  }

  predicate HoldsBy(s: Settings, d: Directory, name: string, role: Role, g: string)
  {
    g in d.groups && InGroup(d, name, g) && Gives(s, d, g, role)
  }

  predicate HoldsRole(s: Settings, d: Directory, name: string, role: Role)
  {
    exists g :: g in d.groups && HoldsBy(s, d, name, role, g)
  }

  /** `groupsOfUser` answers a person's groups in some order. */
  ghost predicate GroupsOfUser(d: Directory, name: string, membership: seq<string>)
  {
    forall g :: g in membership <==> g in d.groups && InGroup(d, name, g)
  }

  predicate Implies(given: Option<Role>, role: Role)
  {
    given == Some(role) || (role == Read && given == Some(Write))
  }

  method WithImplied(given: seq<Option<Role>>) returns (held: set<Role>)
    ensures forall role :: role in held <==> exists k :: 0 <= k < |given| && Implies(given[k], role)
  {
    held := {};
    for i := 0 to |given|
      invariant forall role :: role in held <==> exists k :: 0 <= k < i && Implies(given[k], role)
    {
      if given[i].Some? {
        held := held + {given[i].value} + if given[i].value == Write then {Read} else {};
      }
    }
  }

  method HeldRoles(s: Settings, d: Directory, name: string, membership: seq<string>) returns (held: set<Role>)
    requires GroupsOfUser(d, name, membership)
    ensures forall role :: role in held <==> HoldsRole(s, d, name, role)
  {
    assert forall k :: 0 <= k < |membership| ==> membership[k] in membership;
    var given := seq(|membership|, k requires 0 <= k < |membership| => RoleOfGroup(s, d, membership[k]));
    held := WithImplied(given);
    forall role ensures (exists k :: 0 <= k < |given| && Implies(given[k], role)) <==> HoldsRole(s, d, name, role) {
      HeldExactly(s, d, name, membership, role);
      assert forall k :: 0 <= k < |given| ==> given[k] == RoleOfGroup(s, d, membership[k]);
    }
  }

  lemma HeldExactly(s: Settings, d: Directory, name: string, membership: seq<string>, role: Role)
    requires GroupsOfUser(d, name, membership)
    ensures forall k :: 0 <= k < |membership| ==> membership[k] in d.groups
    ensures HoldsRole(s, d, name, role) <==>
            exists k :: 0 <= k < |membership| && Implies(RoleOfGroup(s, d, membership[k]), role)
  {
    assert forall k :: 0 <= k < |membership| ==> membership[k] in membership;
    if k :| 0 <= k < |membership| && Implies(RoleOfGroup(s, d, membership[k]), role) {
      assert HoldsBy(s, d, name, role, membership[k]);
    }
    if g :| g in d.groups && HoldsBy(s, d, name, role, g) {
      assert g in membership;
      var k :| 0 <= k < |membership| && membership[k] == g;
    }
  }

  // ----- the roster -----------------------------------------------------------------

  predicate ListedIn(d: Directory, g: string, person: string)
    requires g in d.groups
  {
    exists m :: m in Members(d.people, d.groups[g]) && NormalizeDn(m.dn) == person
  }

  /** Who claims a group on their own entry while the group does not list them. */
  function Claimants(d: Directory, g: string): set<string>
    requires g in d.groups
  {
    set person | person in d.claims && g in d.claims[person] && !ListedIn(d, g, person)
  }

  function MemberCount(s: Settings, d: Directory, role: Role): nat
  {
    var g := GroupOf(s, d, role);
    if g in d.groups then |Members(d.people, d.groups[g])| + |Claimants(d, g)| else 0
  }

  function GrantCount(s: Settings, d: Directory): nat
  {
    MemberCount(s, d, Read) + MemberCount(s, d, Write)
  }

  /** The groups' own lists are asked first and a listed member settles it; the
      answer is the full roster's all the same. */
  method RosterEmpty(s: Settings, d: Directory) returns (empty: bool)
    ensures empty <==> GrantCount(s, d) == 0
  {
    var roles := [Read, Write];
    for i := 0 to |roles| {
      var g := GroupOf(s, d, roles[i]);
      if g in d.groups && |Members(d.people, d.groups[g])| > 0 {
        assert roles[i] == Read || roles[i] == Write;
        return false;
      }
    }
    var n := 0;
    for i := 0 to |roles|
      invariant n == (if i > 0 then MemberCount(s, d, Read) else 0) + (if i > 1 then MemberCount(s, d, Write) else 0)
    {
      n := n + MemberCount(s, d, roles[i]);
    }
    empty := n == 0;
  }

  /** Whoever is in a role's own group is on its roster, from one end or the
      other, and nobody with an entry is on it who is not. */
  lemma RosterComplete(d: Directory, name: string, g: string)
    requires g in d.groups
    ensures var person := NormalizeDn(TargetDn(d.people, name));
            InGroup(d, name, g) <==>
              || ListedIn(d, g, person)
              || (d.people.entryOf(name).Some? && person in Claimants(d, g))
  {
  }

  lemma NobodyIn(d: Directory, name: string, g: string)
    requires g in d.groups && Members(d.people, d.groups[g]) == [] && Claimants(d, g) == {}
    ensures !InGroup(d, name, g)
  {
    RosterComplete(d, name, g);
  }

  /** With the roster empty a role is still held exactly where a group that is
      not at a role's DN is named as a role's group is. */
  lemma HeldOffTheRoster(s: Settings, d: Directory, name: string, role: Role)
    requires GrantCount(s, d) == 0
    ensures HoldsRole(s, d, name, role) <==>
            exists g :: g in d.groups && HoldsBy(s, d, name, role, g) && OffTheRoster(s, d, g)
  {
    if g :| g in d.groups && HoldsBy(s, d, name, role, g) {
      if g == GroupOf(s, d, Read) || g == GroupOf(s, d, Write) {
        var own := if g == GroupOf(s, d, Read) then Read else Write;
        assert MemberCount(s, d, own) == 0;
        NobodyIn(d, name, g);
        assert false;
      }
      NamedForARole(s, d, g, role);
    }
  }

  predicate OffTheRoster(s: Settings, d: Directory, g: string)
    requires g in d.groups
  {
    && g != GroupOf(s, d, Read) && g != GroupOf(s, d, Write)
    && (Text.Lower(Text.Trim(GroupName(d, g))) in Wanted(s, d)
        || g == Text.Lower(GroupCn(s, Read)) || g == Text.Lower(GroupCn(s, Write)))
  }

  lemma NamedForARole(s: Settings, d: Directory, g: string, role: Role)
    requires g in d.groups && Gives(s, d, g, role) && g != GroupOf(s, d, Read) && g != GroupOf(s, d, Write)
    ensures OffTheRoster(s, d, g)
  {
    var name := Text.Lower(Text.Trim(GroupName(d, g)));
    if name !in Wanted(s, d) {
      assert g in Wanted(s, d);
      assert g == Text.Lower(GroupCn(s, Read)) || g == Text.Lower(GroupCn(s, Write));
    }
  }

  // ----- the decision ---------------------------------------------------------------

  predicate Seeded(realm: Realm)
  {
    realm.account.Some? && realm.account.value.bootstrapAdministrator
  }

  /** Where an administrator was seeded the window is theirs to close; where
      none was, it is open while the roster is empty. */
  predicate Unclaimed(s: Settings, realm: Realm)
  {
    if Seeded(realm) then !realm.account.value.consoleClaimed else GrantCount(s, realm.directory) == 0
  }

  predicate NoRole(s: Settings, d: Directory, name: string)
  {
    !HoldsRole(s, d, name, Read) && !HoldsRole(s, d, name, Write)
  }

  predicate OpenTo(s: Settings, realm: Realm, name: string)
  {
    && name != "" && NoRole(s, realm.directory, name)
    && Unclaimed(s, realm) && s.openWhenEmpty && !realm.product
  }

  function BootstrapName(s: Settings): string
  {
    Text.Trim(s.bootstrapName)
  }

  predicate IsBootstrap(s: Settings, username: string)
  {
    && Text.Trim(username) != "" && BootstrapName(s) != ""
    && Text.Lower(Text.Trim(username)) == Text.Lower(BootstrapName(s))
  }

  datatype Answer = Answer(read: bool, write: bool, open: bool, openable: bool, withheld: bool,
                           claimPending: bool, empty: bool)

  /** `rolesOf`, where the bound realm is nothing when no directory is loaded. */
  method RolesOf(s: Settings, bound: Option<Realm>, username: string, membership: seq<string>) returns (out: Answer)
    requires bound.Some? ==> GroupsOfUser(bound.value.directory, Text.Trim(username), membership)
    ensures bound.None? || Text.Trim(username) == "" ==> out == Answer(false, false, false, false, false, false, false)
    ensures bound.Some? && Text.Trim(username) != "" ==>
              var realm, name := bound.value, Text.Trim(username);
              && out.open == OpenTo(s, realm, name)
              && out.read == (HoldsRole(s, realm.directory, name, Read) || out.open)
              && out.write == (HoldsRole(s, realm.directory, name, Write) || out.open)
              && out.openable == (Unclaimed(s, realm) && NoRole(s, realm.directory, name))
              && out.withheld == (realm.product && out.openable)
              && out.empty == (GrantCount(s, realm.directory) == 0)
    ensures out.claimPending <==>
              && bound.Some? && bound.value.product && Seeded(bound.value) && Unclaimed(s, bound.value)
              && IsBootstrap(s, username) && HoldsRole(s, bound.value.directory, Text.Trim(username), Read)
    ensures out.write ==> out.read
  {
    var name := Text.Trim(username);
    if bound.None? || name == "" {
      return Answer(false, false, false, false, false, false, false);
    }
    var realm := bound.value;
    var held := HeldRoles(s, realm.directory, name, membership);
    WriteImpliesRead(s, realm.directory, name);
    var empty := RosterEmpty(s, realm.directory);
    var bootstrap := BootstrapName(s);
    var asBootstrap := bootstrap != "" && Text.Lower(name) == Text.Lower(bootstrap);
    out := Decide(held, realm.account, empty, realm.product, s.openWhenEmpty, asBootstrap);
  }

  method Decide(roles: set<Role>, account: Option<Account>, empty: bool, product: bool, openWhenEmpty: bool,
                asBootstrap: bool)
    returns (out: Answer)
    requires Write in roles ==> Read in roles
    ensures var unclaimed := if account.Some? && account.value.bootstrapAdministrator
                             then !account.value.consoleClaimed else empty;
            && out.openable == (unclaimed && Read !in roles)
            && out.open == (out.openable && !product && openWhenEmpty)
            && out.read == (Read in roles || out.open) && out.write == (Write in roles || out.open)
            && out.withheld == (product && out.openable)
            && (out.claimPending <==>
                  && product && account.Some? && account.value.bootstrapAdministrator && unclaimed
                  && Read in roles && asBootstrap)
            && out.empty == empty
  {
    var held := roles;
    var seeded := account.Some? && account.value.bootstrapAdministrator;
    var unclaimed := if seeded then !account.value.consoleClaimed else empty;
    var opens := !product;
    var openable, open := false, false;
    assert held != {} ==> Read in held by {
      if role :| role in held { assert role == Read || role == Write; }
    }
    if unclaimed && held == {} {
      openable := true;
      if opens && openWhenEmpty {
        open := true;
        held := {Read, Write};
      }
    }
    var claimPending := !opens && seeded && !account.value.consoleClaimed && asBootstrap && held != {};
    var withheld := !opens && unclaimed && held == {};
    out := Answer(Read in held, Write in held, open, openable, withheld, claimPending, empty);
  }

  lemma WriteImpliesRead(s: Settings, d: Directory, name: string)
    ensures HoldsRole(s, d, name, Write) ==> HoldsRole(s, d, name, Read)
  {
    if g :| g in d.groups && HoldsBy(s, d, name, Write, g) {
      assert HoldsBy(s, d, name, Read, g);
    }
  }

  datatype Description = Description(grantCount: nat, empty: bool, openToAnyone: bool, closedToEveryone: bool,
                                     bootstrapPasswordRequired: bool)

  /** `describe`, over the full roster; the console is gated in both modes. */
  method Describe(s: Settings, bound: Option<Realm>, defaultProduct: bool) returns (out: Description)
    ensures bound.Some? ==>
              forall name :: name != "" && NoRole(s, bound.value.directory, name) ==>
                (out.openToAnyone <==> OpenTo(s, bound.value, name))
    ensures out.grantCount == if bound.Some? then GrantCount(s, bound.value.directory) else 0
    ensures out.empty == (out.grantCount == 0)
    ensures out.bootstrapPasswordRequired <==>
              bound.Some? && bound.value.product && Seeded(bound.value) && Unclaimed(s, bound.value)
    ensures bound.None? ==> out.openToAnyone == (s.openWhenEmpty && !defaultProduct)
    ensures out.closedToEveryone <==> out.empty && !out.openToAnyone
  {
    var grantCount := if bound.Some? then GrantCount(s, bound.value.directory) else 0;
    var empty := grantCount == 0;
    var seeded := bound.Some? && Seeded(bound.value);
    var unclaimed := if seeded then !bound.value.account.value.consoleClaimed else empty;
    var opens := if bound.Some? then !bound.value.product else !defaultProduct;
    var openToAnyone := unclaimed && s.openWhenEmpty && opens;
    var passwordRequired := !opens && seeded && !bound.value.account.value.consoleClaimed;
    out := Description(grantCount, empty, openToAnyone, empty && !openToAnyone, passwordRequired);
  }

  // ----- what granting and revoking do to who holds the role --------------------------

  function AfterGrant(s: Settings, d: Directory, role: Role, name: string, description: string): Directory
  {
    var g := GroupOf(s, d, role);
    if g !in d.groups then
      d.(groups := d.groups[g := NewGroup(d.people, description, GroupCn(s, role), name)])
    else if Holds(d.people, d.groups[g], name) then d
    else d.(groups := d.groups[g := Granted(d.people, d.groups[g], name)])
  }

  function AfterRevoke(s: Settings, d: Directory, role: Role, name: string): Directory
  {
    var g := GroupOf(s, d, role);
    if g !in d.groups || !Holds(d.people, d.groups[g], name) then d
    else d.(groups := d.groups[g := Revoked(d.people, d.groups[g], name)])
  }

  predicate HoldsElsewhere(s: Settings, d: Directory, name: string, role: Role, g: string)
  {
    exists h :: h in d.groups && h != g && HoldsBy(s, d, name, role, h)
  }

  /** Writing one group leaves what every other group gives as it was. */
  lemma OneGroupWritten(s: Settings, d: Directory, g: string, written: Attributes, name: string, role: Role)
    ensures var after := d.(groups := d.groups[g := written]);
            && (HoldsElsewhere(s, after, name, role, g) <==> HoldsElsewhere(s, d, name, role, g))
            && (HoldsRole(s, after, name, role) <==>
                  HoldsBy(s, after, name, role, g) || HoldsElsewhere(s, d, name, role, g))
  {
    var after := d.(groups := d.groups[g := written]);
    assert Wanted(s, after) == Wanted(s, d);
    forall h | h in d.groups && h != g ensures HoldsBy(s, after, name, role, h) <==> HoldsBy(s, d, name, role, h) {
      SameGroupSame(s, d, after, h, name);
    }
    if HoldsRole(s, after, name, role) && !HoldsElsewhere(s, after, name, role, g) {
      var h :| h in after.groups && HoldsBy(s, after, name, role, h);
      assert h == g;
    }
  }

  lemma SameGroupSame(s: Settings, d: Directory, after: Directory, h: string, name: string)
    requires after == d.(groups := after.groups)
    requires h in d.groups && h in after.groups && after.groups[h] == d.groups[h]
    ensures RoleOfGroup(s, after, h) == RoleOfGroup(s, d, h) && (InGroup(after, name, h) <==> InGroup(d, name, h))
  {
    assert Wanted(s, after) == Wanted(s, d);
  }

  lemma GrantedIsListed(people: People, attributes: Attributes, name: string)
    ensures Lists(people, Granted(people, attributes, name), TargetDn(people, name))
  {
    var after, dn := Granted(people, attributes, name), TargetDn(people, name);
    MemberIsValue(people, after, Member("member", dn, dn, people.present(dn)));
  }

  lemma NewGroupLists(people: People, description: string, cn: string, name: string, dn: string)
    ensures Lists(people, NewGroup(people, description, cn, name), dn) <==>
            NormalizeDn(dn) == NormalizeDn(TargetDn(people, name))
  {
    var after, target := NewGroup(people, description, cn, name), TargetDn(people, name);
    MemberIsValue(people, after, Member("member", target, target, people.present(target)));
    if m :| m in Members(people, after) && NormalizeDn(m.dn) == NormalizeDn(dn) {
      MemberIsValue(people, after, m);
      assert m.value in after["member"];
    }
  }

  /** A role's own group gives Admin Read whatever it is named, and Admin Write
      unless its name is the read group's alone. */
  lemma OwnGroupGives(s: Settings, d: Directory, role: Role)
    requires GroupOf(s, d, role) in d.groups && GroupCn(s, role) != ""
    ensures var g := GroupOf(s, d, role);
            var name := Text.Lower(Text.Trim(GroupName(d, g)));
            && Gives(s, d, g, Read)
            && (role == Write ==> (Gives(s, d, g, Write) <==> !(name in Wanted(s, d) && Wanted(s, d)[name] == Read)))
  {
  }

  /** After a grant that wrote, the person holds the role exactly where the
      group gives it or another group did already. */
  lemma GrantGives(s: Settings, d: Directory, role: Role, name: string, description: string)
    requires var g := GroupOf(s, d, role); g in d.groups ==> !Holds(d.people, d.groups[g], name)
    ensures var g, after := GroupOf(s, d, role), AfterGrant(s, d, role, name, description);
            && g in after.groups
            && (HoldsRole(s, after, name, role) <==> Gives(s, after, g, role) || HoldsElsewhere(s, d, name, role, g))
  {
    var g := GroupOf(s, d, role);
    var after := AfterGrant(s, d, role, name, description);
    if g in d.groups {
      GrantedIsListed(d.people, d.groups[g], name);
    } else {
      NewGroupLists(d.people, description, GroupCn(s, role), name, TargetDn(d.people, name));
    }
    OneGroupWritten(s, d, g, after.groups[g], name, role);
  }

  /** The grant that makes the group also makes good every `memberOf` that
      already named it: nobody else's role comes of it in another way. */
  lemma FirstGrantHonoursClaims(s: Settings, d: Directory, role: Role, name: string, description: string, other: string)
    requires GroupOf(s, d, role) !in d.groups
    requires NormalizeDn(TargetDn(d.people, other)) != NormalizeDn(TargetDn(d.people, name))
    ensures var g, after := GroupOf(s, d, role), AfterGrant(s, d, role, name, description);
            && g in after.groups
            && (HoldsRole(s, after, other, role) <==>
                  || (ClaimsGroup(d, other, g) && Gives(s, after, g, role))
                  || HoldsElsewhere(s, d, other, role, g))
  {
    var g := GroupOf(s, d, role);
    var after := AfterGrant(s, d, role, name, description);
    NewGroupLists(d.people, description, GroupCn(s, role), name, TargetDn(d.people, other));
    OneGroupWritten(s, d, g, after.groups[g], other, role);
  }

  /** The group still gives the role to a person taken out of it exactly by
      their own claim or by a `memberUid` under another of their names. */
  lemma RevokedGives(s: Settings, d: Directory, g: string, role: Role, name: string)
    requires g in d.groups
    ensures var after := d.(groups := d.groups[g := Revoked(d.people, d.groups[g], name)]);
            HoldsBy(s, after, name, role, g) <==>
              Gives(s, d, g, role) && (ClaimsGroup(d, name, g) || NamedAnotherWay(d, name, g))
  {
    var after := d.(groups := d.groups[g := Revoked(d.people, d.groups[g], name)]);
    StillListedIff(d.people, d.groups[g], name);
    NameKept(d.people, d.groups[g], name);
    SameNameSameRole(s, d, after, g);
    assert after.people == d.people && (ClaimsGroup(after, name, g) <==> ClaimsGroup(d, name, g));
  }

  predicate NamedAnotherWay(d: Directory, name: string, g: string)
    requires g in d.groups
  {
    exists v :: v in ValuesOf(d.groups[g], "memberuid") && OtherUid(d.people, v, name)
  }

  /** After a revoke that wrote, the person holds the role exactly where the
      group gives it to them another way or another group does. */
  lemma RevokeTakes(s: Settings, d: Directory, role: Role, name: string)
    requires var g := GroupOf(s, d, role); g in d.groups && Holds(d.people, d.groups[g], name)
    ensures var g := GroupOf(s, d, role);
            HoldsRole(s, AfterRevoke(s, d, role, name), name, role) <==>
              || (Gives(s, d, g, role) && (ClaimsGroup(d, name, g) || NamedAnotherWay(d, name, g)))
              || HoldsElsewhere(s, d, name, role, g)
  {
    var g := GroupOf(s, d, role);
    RevokedGives(s, d, g, role, name);
    OneGroupWritten(s, d, g, Revoked(d.people, d.groups[g], name), name, role);
  }

  lemma NameKept(people: People, attributes: Attributes, name: string)
    ensures ValuesOf(Revoked(people, attributes, name), "cn") == ValuesOf(attributes, "cn")
  {
    if "cn" in attributes {
      RevokeSpares(people, attributes, name, "cn");
    }
  }

  lemma SameNameSameRole(s: Settings, d: Directory, after: Directory, g: string)
    requires after == d.(groups := after.groups) && g in d.groups && g in after.groups
    requires ValuesOf(after.groups[g], "cn") == ValuesOf(d.groups[g], "cn")
    ensures RoleOfGroup(s, after, g) == RoleOfGroup(s, d, g)
  {
    assert Wanted(s, after) == Wanted(s, d);
  }

  // ----- where the exceptions are ------------------------------------------------------

  /** A one-letter name is its own normalized DN. */
  lemma OneLetter(c: char)
    requires 'a' <= c <= 'z'
    ensures NormalizeDn([c]) == [c] && Text.Lower(Text.Trim([c])) == [c] && Text.Trim([c]) == [c]
  {
    Text.SplitWhole([c], ',');
    assert Text.Lower([c]) == [c];
  }

  const SETTINGS := Settings("r", "w", "admin", true)

  /** The read group is at "a", the write group at "b". */
  function Sample(groups: map<string, Attributes>): Directory
  {
    Directory(groups, People(n => None, dn => false, "u"), map[],
              cn => if cn == "r" then "a" else "b", dn => "", dn => "")
  }

  lemma SampleGroups(groups: map<string, Attributes>)
    ensures GroupCn(SETTINGS, Read) == "r" && GroupCn(SETTINGS, Write) == "w"
    ensures GroupOf(SETTINGS, Sample(groups), Read) == "a" && GroupOf(SETTINGS, Sample(groups), Write) == "b"
    ensures Wanted(SETTINGS, Sample(groups)) == map["r" := Read, "a" := Read, "w" := Write, "b" := Write]
  {
    OneLetter('r');
    OneLetter('w');
    OneLetter('a');
    OneLetter('b');
    assert Text.Lower("r") == "r" && Text.Lower("w") == "w";
  }

  /** A group that names a person, called "r". */
  function NamedForRead(dn: string): Attributes
  {
    map["cn" := ["r"], "member" := [dn]]
  }

  lemma NamedForReadLists(people: People, name: string)
    ensures Lists(people, NamedForRead(TargetDn(people, name)), TargetDn(people, name))
  {
    var dn := TargetDn(people, name);
    assert dn in NamedForRead(dn)["member"];
    MemberIsValue(people, NamedForRead(dn), Member("member", dn, dn, people.present(dn)));
  }

  lemma NamedForReadGives(dn: string)
    ensures RoleOfGroup(SETTINGS, Sample(map["c" := NamedForRead(dn)]), "c") == Some(Read)
  {
    SampleGroups(map["c" := NamedForRead(dn)]);
    OneLetter('r');
    assert ValuesOf(NamedForRead(dn), "cn") == ["r"];
  }

  /** A group at "c" called "r" gives its member Admin Read with nobody on the
      roster. */
  lemma HeldWithAnEmptyRoster(name: string)
    ensures var people := Sample(map[]).people;
            var d := Sample(map["c" := NamedForRead(TargetDn(people, name))]);
            GrantCount(SETTINGS, d) == 0 && HoldsRole(SETTINGS, d, name, Read)
  {
    var people := Sample(map[]).people;
    var d := Sample(map["c" := NamedForRead(TargetDn(people, name))]);
    SampleGroups(d.groups);
    NamedForReadLists(people, name);
    NamedForReadGives(TargetDn(people, name));
    assert HoldsBy(SETTINGS, d, name, Read, "c");
  }

  /** The write group called "r" gives Admin Read and not Admin Write. */
  lemma WriteGroupNamedForRead()
    ensures var d := Sample(map["b" := map["cn" := ["r"]]]);
            && GroupOf(SETTINGS, d, Write) == "b" && "b" in d.groups
            && Gives(SETTINGS, d, "b", Read) && !Gives(SETTINGS, d, "b", Write)
  {
    var group: Attributes := map["cn" := ["r"]];
    var groups: map<string, Attributes> := map["b" := group];
    SampleGroups(groups);
    OneLetter('r');
    assert ValuesOf(group, "cn") == ["r"];
    assert RoleOfGroup(SETTINGS, Sample(groups), "b") == Some(Read);
  }
}
