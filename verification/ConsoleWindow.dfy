/** The bootstrap window: open from the seeding of a realm's administrator until
    that account first signs in to the console, and never again. */
module ConsoleWindow {
  import opened Wrappers
  import opened Roster
  import opened ConsoleRoles
  import RealmBinding
  import Text

  const DEFAULT_ID := "default"

  type Realms = map<string, Realm>

  datatype Session = Session(amr: seq<string>, signInAuthority: string, derivedFromRealm: string)

  /** Made from a password this service verified. */
  predicate PasswordSignIn(session: Session)
  {
    session.signInAuthority == "local" && "pwd" in session.amr && "federated" !in session.amr
  }

  predicate Claimed(realm: Realm)
  {
    Seeded(realm) && realm.account.value.consoleClaimed
  }

  function SignedInFrom(session: Session, defaultRealmId: string): string
  {
    if session.derivedFromRealm != "" then session.derivedFromRealm
    else if defaultRealmId != "" then defaultRealmId
    else DEFAULT_ID
  }

  // ----- a sign-in to the console ---------------------------------------------------

  /** What a sign-in leaves of every realm. */
  function AfterSignIn(s: Settings, realms: Realms, bound: Option<string>, username: string, session: Session,
                       defaultRealmId: string): Realms
  {
    map id | id in realms ::
      if && RealmBinding.View(realms, bound, SignedInFrom(session, defaultRealmId)) == Some(id)
         && CloseBy(s, realms[id], username, session)
      then realms[id].(account := Some(Account(true, true)))
      else realms[id]
  }

  /** The sign-in closes this realm's window: it is the administrator's, the
      window is seeded and open, and in product a password made the session. */
  predicate CloseBy(s: Settings, realm: Realm, username: string, session: Session)
  {
    && IsBootstrap(s, username) && (realm.product ==> PasswordSignIn(session))
    && Seeded(realm) && !realm.account.value.consoleClaimed
  }

  /** A sign-in closes the window of the realm the session is of and of no other: the
      realm it derives from, else the default; there it must be the administrator by
      name, the window seeded and open, and in product a password of this service. */
  lemma SignInCloses(s: Settings, realms: Realms, bound: Option<string>, username: string, session: Session,
                     defaultRealmId: string, id: string)
    requires id in realms
    requires Text.Trim(session.derivedFromRealm) == session.derivedFromRealm
    requires Text.Trim(defaultRealmId) == defaultRealmId
    ensures var home := if session.derivedFromRealm != "" then session.derivedFromRealm
                        else if defaultRealmId != "" then defaultRealmId else "default";
            AfterSignIn(s, realms, bound, username, session, defaultRealmId)[id] != realms[id] <==>
            && id == home && realms[id].account == Some(Account(true, false))
            && Text.Trim(s.bootstrapName) != ""
            && Text.Lower(Text.Trim(username)) == Text.Lower(Text.Trim(s.bootstrapName))
            && (realms[id].product ==>
                  session.signInAuthority == "local" && "pwd" in session.amr && "federated" !in session.amr)
  {
    assert Text.Trim("default") == "default";
    RealmBinding.ViewIs(realms, bound, SignedInFrom(session, defaultRealmId));
  }

  /** The register, with the realm in use for the call in progress. */
  class Register {
    var settings: Settings
    var realms: Realms
    var bound: Option<string>

    constructor (settings: Settings, realms: Realms)
      ensures this.settings == settings && this.realms == realms && bound == Some(DEFAULT_ID)
    {
      this.settings := settings;
      this.realms := realms;
      bound := Some(DEFAULT_ID);
    }

    ghost predicate Valid()
      reads this
    {
      bound.Some? ==> bound.value in realms
    }

    method NoteConsoleSignIn(username: string, session: Session, defaultRealmId: string) returns (closed: bool)
      requires Valid()
      modifies this
      ensures Valid() && settings == old(settings) && bound == old(bound)
      ensures realms == AfterSignIn(settings, old(realms), old(bound), username, session, defaultRealmId)
      ensures closed <==> realms != old(realms)
    {
      var name, wanted := Text.Trim(username), BootstrapName(settings);
      if name == "" || wanted == "" || Text.Lower(name) != Text.Lower(wanted) {
        return false;
      }
      var previous := bound;
      bound := RealmBinding.View(realms, bound, SignedInFrom(session, defaultRealmId));
      closed := false;
      if bound.Some? && (!realms[bound.value].product || PasswordSignIn(session)) {
        closed := CloseBootstrapWindow();
      }
      bound := previous;
    }

    method CloseBootstrapWindow() returns (closed: bool)
      requires Valid() && bound.Some?
      modifies this`realms
      ensures var realm := old(realms)[bound.value];
              && closed == (Seeded(realm) && !realm.account.value.consoleClaimed)
              && realms == if closed then old(realms)[bound.value := realm.(account := Some(Account(true, true)))]
                           else old(realms)
    {
      var realm := realms[bound.value];
      if !Seeded(realm) || realm.account.value.consoleClaimed {
        return false;
      }
      realms := realms[bound.value := realm.(account := Some(Account(true, true)))];
      closed := true;
    }

    /** Grants and revokes in the bound realm; a write the directory refuses
        changes nothing. */
    method GrantRole(role: Role, name: string, description: string, accepted: bool)
      requires Valid() && bound.Some?
      modifies this`realms
      ensures var realm := old(realms)[bound.value];
              realms == if accepted
                        then old(realms)[bound.value := realm.(
                               directory := AfterGrant(settings, realm.directory, role, name, description))]
                        else old(realms)
    {
      var realm := realms[bound.value];
      var d, g := realm.directory, GroupOf(settings, realm.directory, role);
      var existing := if g in d.groups then Some(d.groups[g]) else None;
      var outcome := Grant(d.people, existing, description, GroupCn(settings, role), name);
      if accepted && outcome.Written? {
        realms := realms[bound.value := realm.(directory := d.(groups := d.groups[g := outcome.attributes]))];
      }
    }

    method RevokeRole(role: Role, name: string, accepted: bool) returns (outcome: Outcome)
      requires Valid() && bound.Some?
      modifies this`realms
      ensures var realm := old(realms)[bound.value];
              realms == if accepted
                        then old(realms)[bound.value := realm.(
                               directory := AfterRevoke(settings, realm.directory, role, name))]
                        else old(realms)
      ensures var d := old(realms)[bound.value].directory;
              var g := GroupOf(settings, d, role);
              outcome.ByClaim? <==> g in d.groups && !Holds(d.people, d.groups[g], name) && ClaimsGroup(d, name, g)
    {
      var realm := realms[bound.value];
      var d, g := realm.directory, GroupOf(settings, realm.directory, role);
      var existing := if g in d.groups then Some(d.groups[g]) else None;
      outcome := Revoke(d.people, existing, name, ClaimsGroup(d, name, g));
      if accepted && outcome.Written? {
        realms := realms[bound.value := realm.(directory := d.(groups := d.groups[g := outcome.attributes]))];
      }
    }

    method GrantBothRoles(wrote: set<Role>)
      requires Valid() && bound.Some?
      modifies this`realms
      ensures var realm := old(realms)[bound.value];
              realms == old(realms)[bound.value := realm.(directory := GrantBoth(settings, realm.directory, wrote))]
    {
      GrantRole(Read, BootstrapName(settings), "", Read in wrote);
      GrantRole(Write, BootstrapName(settings), "", Write in wrote);
    }

    /** Seeds the bound realm: makes the account if it is not there and can be
        (`made` is the people then), marks it, gives it both roles, and closes
        the window at once where somebody else was on the roster before. */
    method SeedBootstrapAdministrator(made: Option<People>, wrote: set<Role>) returns (ran: bool)
      requires Valid() && bound.Some?
      modifies this`realms
      ensures realms == old(realms)[bound.value := AfterSeed(settings, old(realms)[bound.value], made, wrote)]
      ensures ran <==> Seeds(settings, old(realms)[bound.value], made)
    {
      var onRoster := OnRoster(settings, realms[bound.value].directory);
      ran := SeedBeside(onRoster, made, wrote);
    }

    method SeedBeside(onRoster: set<string>, made: Option<People>, wrote: set<Role>) returns (ran: bool)
      requires Valid() && bound.Some?
      modifies this`realms
      ensures realms ==
              old(realms)[bound.value := SeededBeside(settings, old(realms)[bound.value], onRoster, made, wrote)]
      ensures ran <==> Seeds(settings, old(realms)[bound.value], made)
    {
      var id, realm := bound.value, realms[bound.value];
      if BootstrapName(settings) == "" || Claimed(realm) {
        return false;
      }
      var administered := SomebodyElse(settings, onRoster);
      if realm.account.None? && made.None? {
        return false;
      }
      var marked := Marked(realm, made);
      ghost var before := realms;
      realms := realms[id := marked];
      GrantBothRoles(wrote);
      assert realms == before[id := marked.(directory := GrantBoth(settings, marked.directory, wrote))];
      if administered {
        realms := realms[id := realms[id].(account := Some(Account(true, true)))];
      }
      ran := true;
    }
  }

  // ----- seeding ----------------------------------------------------------------------

  /** The names on the roster other than the administrator's. */
  function Administrators(s: Settings, d: Directory, role: Role): set<string>
  {
    var g := GroupOf(s, d, role);
    if g !in d.groups then {}
    else
      (set m | m in Members(d.people, d.groups[g]) ::
         if m.attribute == "memberuid" then m.value else d.usernameAt(m.dn))
      + (set person | person in Claimants(d, g) :: d.usernameAt(person))
  }

  function OnRoster(s: Settings, d: Directory): set<string>
  {
    Administrators(s, d, Read) + Administrators(s, d, Write)
  }

  predicate SomebodyElse(s: Settings, onRoster: set<string>)
  {
    exists who :: who in onRoster && who != "" && Text.Lower(who) != Text.Lower(BootstrapName(s))
  }

  /** A seeding that gets as far as the account: `made` is the directory's people
      once the account is there, when it had to be made and could be. */
  predicate Seeds(s: Settings, realm: Realm, made: Option<People>)
  {
    BootstrapName(s) != "" && !Claimed(realm) && (realm.account.Some? || made.Some?)
  }

  function GrantIf(s: Settings, d: Directory, role: Role, wrote: set<Role>): Directory
  {
    if role in wrote then AfterGrant(s, d, role, BootstrapName(s), "") else d
  }

  function GrantBoth(s: Settings, d: Directory, wrote: set<Role>): Directory
  {
    GrantIf(s, GrantIf(s, d, Read, wrote), Write, wrote)
  }

  /** The account there and marked, before anything is granted. */
  function Marked(realm: Realm, made: Option<People>): Realm
    requires realm.account.Some? || made.Some?
  {
    if realm.account.Some? then realm.(account := Some(Account(true, realm.account.value.consoleClaimed)))
    else realm.(account := Some(Account(true, false)), directory := realm.directory.(people := made.value))
  }

  function SeededBeside(s: Settings, realm: Realm, onRoster: set<string>, made: Option<People>, wrote: set<Role>): Realm
  {
    if !Seeds(s, realm, made) then realm
    else
      var marked := Marked(realm, made);
      var closed := marked.account.value.consoleClaimed || SomebodyElse(s, onRoster);
      marked.(directory := GrantBoth(s, marked.directory, wrote), account := Some(Account(true, closed)))
  }

  function AfterSeed(s: Settings, realm: Realm, made: Option<People>, wrote: set<Role>): Realm
  {
    SeededBeside(s, realm, OnRoster(s, realm.directory), made, wrote)
  }

  /** A name on the roster that is not the administrator's. */
  predicate AnotherName(s: Settings, who: string)
  {
    who != "" && Text.Lower(who) != Text.Lower(Text.Trim(s.bootstrapName))
  }

  /** Somebody else in a role's own group: by uid, by the entry a DN names, or by an
      entry that claims the group while the group does not list it. */
  predicate SomebodyIn(s: Settings, d: Directory, g: string)
  {
    && g in d.groups
    && (|| (exists v :: v in ValuesOf(d.groups[g], "memberuid") && AnotherName(s, v))
        || (exists v :: v in ValuesOf(d.groups[g], "member") && AnotherName(s, d.usernameAt(v)))
        || (exists v :: v in ValuesOf(d.groups[g], "uniquemember") && AnotherName(s, d.usernameAt(v)))
        || (exists person :: person in d.claims && g in d.claims[person] && !ListedIn(d, g, person)
                             && AnotherName(s, d.usernameAt(person))))
  }

  lemma SomebodyInIs(s: Settings, d: Directory, role: Role)
    ensures SomebodyElse(s, Administrators(s, d, role)) <==> SomebodyIn(s, d, GroupOf(s, d, role))
  {
    if who :| who in Administrators(s, d, role) && AnotherName(s, who) {
      WhoIsIn(s, d, role, who);
    }
    if SomebodyIn(s, d, GroupOf(s, d, role)) {
      var who := InIsWho(s, d, role);
    }
  }

  lemma MemberIsWho(s: Settings, d: Directory, role: Role, a: string, v: string)
    requires GroupOf(s, d, role) in d.groups && a in MEMBER_ATTRIBUTES
    requires v in ValuesOf(d.groups[GroupOf(s, d, role)], a)
    ensures (if a == "memberuid" then v else d.usernameAt(v)) in Administrators(s, d, role)
  {
    var dn := MeantDn(d.people, a, v);
    MemberIsValue(d.people, d.groups[GroupOf(s, d, role)], Member(a, v, dn, d.people.present(dn)));
  }

  lemma InIsWho(s: Settings, d: Directory, role: Role) returns (who: string)
    requires SomebodyIn(s, d, GroupOf(s, d, role))
    ensures who in Administrators(s, d, role) && AnotherName(s, who)
  {
    var g := GroupOf(s, d, role);
    if v :| v in ValuesOf(d.groups[g], "memberuid") && AnotherName(s, v) {
      MemberIsWho(s, d, role, "memberuid", v);
      who := v;
    } else if v :| v in ValuesOf(d.groups[g], "member") && AnotherName(s, d.usernameAt(v)) {
      MemberIsWho(s, d, role, "member", v);
      who := d.usernameAt(v);
    } else if v :| v in ValuesOf(d.groups[g], "uniquemember") && AnotherName(s, d.usernameAt(v)) {
      MemberIsWho(s, d, role, "uniquemember", v);
      who := d.usernameAt(v);
    } else {
      var person :| person in d.claims && g in d.claims[person] && !ListedIn(d, g, person)
                    && AnotherName(s, d.usernameAt(person));
      assert person in Claimants(d, g);
      who := d.usernameAt(person);
    }
  }

  lemma WhoIsIn(s: Settings, d: Directory, role: Role, who: string)
    requires GroupOf(s, d, role) in d.groups && who in Administrators(s, d, role) && AnotherName(s, who)
    ensures SomebodyIn(s, d, GroupOf(s, d, role))
  {
    var g := GroupOf(s, d, role);
    if person :| person in Claimants(d, g) && who == d.usernameAt(person) {
      assert person in d.claims && g in d.claims[person];
    } else {
      var m :| m in Members(d.people, d.groups[g])
               && who == if m.attribute == "memberuid" then m.value else d.usernameAt(m.dn);
      MemberIsValue(d.people, d.groups[g], m);
      assert m.value in ValuesOf(d.groups[g], m.attribute);
    }
  }

  /** When a seeding finds the console administered already. */
  lemma AdministeredMeans(s: Settings, d: Directory)
    ensures SomebodyElse(s, OnRoster(s, d)) <==>
            SomebodyIn(s, d, GroupOf(s, d, Read)) || SomebodyIn(s, d, GroupOf(s, d, Write))
  {
    SomebodyInIs(s, d, Read);
    SomebodyInIs(s, d, Write);
  }

  /** A realm is seeded exactly if the setting names an administrator, its window was
      not claimed, and the account was there or could be made; otherwise it is left. */
  lemma SeededIff(s: Settings, realm: Realm, made: Option<People>, wrote: set<Role>)
    ensures var able := Text.Trim(s.bootstrapName) != "" && realm.account != Some(Account(true, true))
                        && (realm.account.Some? || made.Some?);
            && (able ==> Seeded(AfterSeed(s, realm, made, wrote)))
            && (!able ==> AfterSeed(s, realm, made, wrote) == realm)
  {
    if Seeds(s, realm, made) {
      assert AfterSeed(s, realm, made, wrote).account.value.bootstrapAdministrator;
    }
  }

  /** A seeding whose writes both went through puts the administrator in both groups;
      one whose writes were refused writes no group. */
  lemma SeedGivesBoth(s: Settings, realm: Realm, made: Option<People>, role: Role)
    requires Seeds(s, realm, made)
    ensures var d := AfterSeed(s, realm, made, {Read, Write}).directory;
            var g := NormalizeDn(d.groupDnFor(GroupCn(s, role)));
            g in d.groups && Holds(d.people, d.groups[g], Text.Trim(s.bootstrapName))
    ensures AfterSeed(s, realm, made, {}).directory.groups == realm.directory.groups
    ensures forall wrote :: AfterSeed(s, realm, made, wrote).account ==
              Some(Account(true, SomebodyElse(s, OnRoster(s, realm.directory))))
              || (realm.account.Some? && realm.account.value.consoleClaimed)
  {
    var d0 := Marked(realm, made).directory;
    var d1 := AfterGrant(s, d0, Read, BootstrapName(s), "");
    GrantLands(s, d0, Read, BootstrapName(s));
    GrantLands(s, d1, Write, BootstrapName(s));
  }

  lemma GrantLands(s: Settings, d: Directory, role: Role, name: string)
    ensures var after, g := AfterGrant(s, d, role, name, ""), GroupOf(s, d, role);
            && after == d.(groups := after.groups) && g in after.groups && Holds(d.people, after.groups[g], name)
            && forall h :: h in d.groups && h != g ==> h in after.groups && after.groups[h] == d.groups[h]
    ensures var after, g := AfterGrant(s, d, role, name, ""), GroupOf(s, d, role);
            g in d.groups && Holds(d.people, d.groups[g], name) ==> after == d
  {
    var g := GroupOf(s, d, role);
    if g in d.groups {
      GrantIsHeld(d.people, d.groups[g], name);
    } else {
      GrantIsHeld(d.people, map[], name);
    }
  }

  // ----- runs -------------------------------------------------------------------------

  datatype World = World(settings: Settings, realms: Realms)

  datatype Event =
    | Seed(realm: string, made: Option<People>, wrote: set<Role>)
    | SignIn(username: string, session: Session)
    | GrantRole(realm: string, role: Role, name: string, description: string)
    | RevokeRole(realm: string, role: Role, name: string)
    | DirectoryWritten(realm: string, directory: Directory)
    | PersonMade(realm: string)
    | ModeSet(realm: string, product: bool)
    | SettingsChanged(readGroup: string, writeGroup: string, openWhenEmpty: bool)

  function OfRealm(w: World, e: Event, id: string): Realm
    requires id in w.realms
  {
    var realm := w.realms[id];
    match e
    case Seed(named, made, wrote) =>
      if Hit(w, named, id) then AfterSeed(w.settings, realm, made, wrote) else realm
    case SignIn(username, session) =>
      AfterSignIn(w.settings, w.realms, Some(DEFAULT_ID), username, session, DEFAULT_ID)[id]
    case GrantRole(named, role, name, description) =>
      if Hit(w, named, id) then realm.(directory := AfterGrant(w.settings, realm.directory, role, name, description))
      else realm
    case RevokeRole(named, role, name) =>
      if Hit(w, named, id) then realm.(directory := AfterRevoke(w.settings, realm.directory, role, name)) else realm
    case DirectoryWritten(named, directory) =>
      if Hit(w, named, id) then realm.(directory := directory) else realm
    case PersonMade(named) =>
      if Hit(w, named, id) && realm.account.None? then realm.(account := Some(Account(false, false))) else realm
    case ModeSet(named, product) =>
      if Hit(w, named, id) then realm.(product := product) else realm
    case SettingsChanged(_, _, _) => realm
  }

  predicate Hit(w: World, named: string, id: string)
  {
    RealmBinding.View(w.realms, Some(DEFAULT_ID), named) == Some(id)
  }

  /** One event. The administrator's name is fixed and its entry, once there,
      cannot be deleted. */
  function Step(w: World, e: Event): World
  {
    World(
      if e.SettingsChanged?
      then w.settings.(readGroup := e.readGroup, writeGroup := e.writeGroup, openWhenEmpty := e.openWhenEmpty)
      else w.settings,
      map id | id in w.realms :: OfRealm(w, e, id))
  }

  function After(w: World, events: seq<Event>): World
    decreases |events|
  {
    if events == [] then w else After(Step(w, events[0]), events[1..])
  }

  /** An event that names a realm leaves every other as it is, and only a change of
      settings changes settings. */
  lemma OthersUntouched(w: World, e: Event, id: string)
    requires id in w.realms
    requires e.SettingsChanged? || (!e.SignIn? && Text.Trim(e.realm) != id && Text.Trim(e.realm) != "")
    ensures id in Step(w, e).realms && Step(w, e).realms[id] == w.realms[id]
    ensures Step(w, e).settings ==
            if e.SettingsChanged? then Settings(e.readGroup, e.writeGroup, w.settings.bootstrapName, e.openWhenEmpty)
            else w.settings
  {
  }

  /** And the realm it names is changed as that realm alone is. */
  lemma NamedIsChanged(w: World, e: Event, id: string)
    requires id in w.realms && !e.SettingsChanged? && !e.SignIn? && Text.Trim(e.realm) == id != ""
    ensures var realm, after := w.realms[id], Step(w, e).realms[id];
            match e
            case Seed(_, made, wrote) => after == AfterSeed(w.settings, realm, made, wrote)
            case GrantRole(_, role, name, description) =>
              after == realm.(directory := AfterGrant(w.settings, realm.directory, role, name, description))
            case RevokeRole(_, role, name) =>
              after == realm.(directory := AfterRevoke(w.settings, realm.directory, role, name))
            case DirectoryWritten(_, directory) => after == realm.(directory := directory)
            case PersonMade(_) =>
              after == if realm.account.Some? then realm else realm.(account := Some(Account(false, false)))
            case ModeSet(_, product) => after == realm.(product := product)
            case _ => true
  {
  }

  /** What can close a realm's open window: its administrator signing in from
      that realm, or a seeding that finds the console administered already. */
  predicate Closes(w: World, e: Event, id: string)
    requires id in w.realms
  {
    var realm := w.realms[id];
    || (e.SignIn? && Hit(w, SignedInFrom(e.session, DEFAULT_ID), id)
        && CloseBy(w.settings, realm, e.username, e.session))
    || (e.Seed? && Hit(w, e.realm, id) && BootstrapName(w.settings) != ""
        && SomebodyElse(w.settings, OnRoster(w.settings, realm.directory)))
  }

  lemma ClosesExactly(w: World, e: Event, id: string)
    requires id in w.realms && Seeded(w.realms[id])
    ensures id in Step(w, e).realms && Seeded(Step(w, e).realms[id])
    ensures Claimed(Step(w, e).realms[id]) <==> Claimed(w.realms[id]) || Closes(w, e, id)
  {
  }

  /** Over any run, the window of a seeded realm is closed at the end exactly if
      it was at the start or some event on the way closes it: no grant, revoke,
      directory write, change of mode or setting counts. */
  lemma {:induction false} ClosedByWhatClosesIt(w: World, events: seq<Event>, id: string)
    requires id in w.realms && Seeded(w.realms[id])
    ensures id in After(w, events).realms && Seeded(After(w, events).realms[id])
    ensures forall i | 0 <= i < |events| :: id in After(w, events[..i]).realms
    ensures Claimed(After(w, events).realms[id]) <==>
            Claimed(w.realms[id]) || exists i :: 0 <= i < |events| && Closes(After(w, events[..i]), events[i], id)
    decreases |events|
  {
    if events != [] {
      var next := Step(w, events[0]);
      ClosesExactly(w, events[0], id);
      ClosedByWhatClosesIt(next, events[1..], id);
      assert events[..0] == [];
      forall i | 0 < i < |events| ensures After(w, events[..i]) == After(next, events[1..][..i - 1]) {
        assert events[..i][1..] == events[1..][..i - 1];
      }
      forall i | 0 < i < |events| ensures id in After(w, events[..i]).realms {
        assert id in After(next, events[1..][..i - 1]).realms;
      }
      if Claimed(After(next, events[1..]).realms[id]) && !Claimed(next.realms[id]) {
        var i :| 0 <= i < |events[1..]| && Closes(After(next, events[1..][..i]), events[1..][i], id);
        assert Closes(After(w, events[..i + 1]), events[i + 1], id);
      }
      if i :| 0 < i < |events| && Closes(After(w, events[..i]), events[i], id) {
        assert Closes(After(next, events[1..][..i - 1]), events[1..][i - 1], id);
      }
    }
  }

  /** Once claimed, the console is open to nobody by the window again, whatever
      becomes of the roster, the mode and the settings. */
  lemma NeverOpenAgain(w: World, events: seq<Event>, id: string, name: string)
    requires id in w.realms && Claimed(w.realms[id])
    ensures id in After(w, events).realms
    ensures !OpenTo(After(w, events).settings, After(w, events).realms[id], name)
  {
    ClosedByWhatClosesIt(w, events, id);
  }

  lemma SeedingAClaimedRealm(s: Settings, realm: Realm, made: Option<People>, wrote: set<Role>)
    ensures Claimed(realm) ==> AfterSeed(s, realm, made, wrote) == realm
    ensures AfterSeed(s, realm, made, wrote).product == realm.product
  {
  }

  /** A sign-in changes nothing but the one flag of the one realm it came from. */
  lemma SignInIsLocal(w: World, username: string, session: Session, id: string)
    requires id in w.realms
    ensures var after := Step(w, SignIn(username, session));
            && after.settings == w.settings && after.realms.Keys == w.realms.Keys
            && after.realms[id].directory == w.realms[id].directory && after.realms[id].product == w.realms[id].product
            && (after.realms[id] != w.realms[id] <==>
                  Hit(w, SignedInFrom(session, DEFAULT_ID), id) && CloseBy(w.settings, w.realms[id], username, session))
  {
  }

  /** What a first seeding opens: in development, while the setting says so and
      nobody else was on the roster, to whoever holds no role. */
  lemma SeedOpensTo(s: Settings, realm: Realm, made: Option<People>, wrote: set<Role>, name: string)
    requires !Seeded(realm) && Seeds(s, realm, made)
    requires realm.account.Some? ==> !realm.account.value.consoleClaimed
    ensures var after := AfterSeed(s, realm, made, wrote);
            OpenTo(s, after, name) <==>
              && !realm.product && s.openWhenEmpty && !SomebodyElse(s, OnRoster(s, realm.directory))
              && name != "" && NoRole(s, after.directory, name)
  {
  }

  /** Product never opens, and while an administrator was seeded the roster has
      no part in it. */
  lemma OpenOnlyIn(s: Settings, realm: Realm, name: string)
    ensures OpenTo(s, realm, name) ==> !realm.product && s.openWhenEmpty && !Claimed(realm)
    ensures Seeded(realm) ==>
              (OpenTo(s, realm, name) <==>
                 !realm.product && s.openWhenEmpty && !Claimed(realm) && name != "" && NoRole(s, realm.directory, name))
  {
  }
}
