/** The line between a realm's administration and the whole service's: what a
    realm administrator may not reach, for the console and the management API. */
module AdminScope {
  import opened Wrappers
  import Text

  const SERVICE_PAGES := [
    "/admin/persistence", "/admin/cluster", "/admin/database", "/admin/encryption", "/admin/secrets",
    "/admin/caches", "/admin/worker-pools", "/admin/node-health", "/admin/debugger", "/admin/tls",
    "/admin/ldap/service", "/admin/api-explorer"]

  const SERVICE_SETTING_PREFIXES := [
    "admin.", "adminApi.", "realms.", "workers.", "persistence.", "debugger.", "tls.", "keys.",
    "security.passwordHash", "risk.", "attributeSources.hostPatterns"]

  const SERVICE_SETTING_KEYS := [
    "global.logLevel", "global.mode", "global.trustProxy", "global.publicBaseUrl",
    "pki.revocationCrlIssuersFile", "pki.revocationLdapCaFile", "pki.revocationHttpsCaFile",
    "gnap.pushCaFile", "ssf.pushCaFile", "federation.outboundCaFile", "xacml.pepNotifyCaFile",
    "pki.revocationLdapDirectory", "pki.distributionPort", "pki.distributionBaseUrl",
    "pki.distributionLdapHost", "pki.distributionLdapPort", "pki.httpPort",
    "spiffe.workloadSocket", "spiffe.serverSocket", "spiffe.grpcHost", "spiffe.workloadPort", "spiffe.serverPort",
    "krb5.kdcPort"]

  /** A field of a parsed body: text, or another value with how it prints. */
  datatype Field = Text(text: string) | Other(truthy: bool, isTrue: bool, printed: string)

  /** A parsed body: its keys in order, and their values. */
  datatype Body = Body(keys: seq<string>, fields: map<string, Field>)

  ghost predicate WellFormed(body: Body)
  {
    forall k :: k in body.keys <==> k in body.fields
  }

  /** What the process knows: its setting rows, which of them are its own, the
      jobs that run for the whole service, and for a dataset in the catalogue
      whether each realm has its own. */
  datatype Service = Service(
    settings: set<string>,
    isPerProcess: string -> bool,
    serviceJob: string -> bool,
    perRealm: string -> Option<bool>)

  datatype State = State(authority: string, identityRealm: string)

  datatype Refusal =
    | ServicePage
    | AnotherRealmRead(named: string)
    | ServiceAction
    | ServiceSettings(settings: seq<string>)

  // ----- pages ------------------------------------------------------------------

  predicate Under(path: string, prefix: string)
  {
    path == prefix || Text.StartsWith(path, prefix + "/")
  }

  /** A prefix ends at a segment boundary: being under one is having its segments
      first. */
  lemma UnderIsBySegments(path: string, prefix: string)
    ensures Under(path, prefix) <==> Text.Split(prefix, '/') <= Text.Split(path, '/')
  {
    var above, all := Text.Split(prefix, '/'), Text.Split(path, '/');
    if Text.StartsWith(path, prefix + "/") {
      var rest := path[|prefix| + 1..];
      assert path == prefix + ['/'] + rest;
      Text.SplitConcat(prefix, '/', rest);
    }
    if above <= all && |all| > |above| {
      var below := all[|above|..];
      assert all == above + below;
      JoinConcat(above, below);
      Text.JoinSplit(path, '/');
      Text.JoinSplit(prefix, '/');
      assert path == prefix + ['/'] + Text.Join(below, '/');
    }
    if above == all {
      Text.JoinSplit(path, '/');
      Text.JoinSplit(prefix, '/');
    }
  }

  lemma {:induction false} JoinConcat(above: seq<string>, below: seq<string>)
    requires above != [] && below != []
    ensures Text.Join(above + below, '/') == Text.Join(above, '/') + ['/'] + Text.Join(below, '/')
  {
    if |above| == 1 {
      assert (above + below)[1..] == below;
    } else {
      JoinConcat(above[1..], below);
      assert (above + below)[1..] == above[1..] + below;
    }
  }

  predicate PageIsService(path: string)
  {
    exists prefix :: prefix in SERVICE_PAGES && Under(path, prefix)
  }

  /** Everything below a service page is one. */
  lemma ServicePagesCoverBelow(path: string, below: string)
    requires PageIsService(path) && Under(below, path)
    ensures PageIsService(below)
  {
    var prefix :| prefix in SERVICE_PAGES && Under(path, prefix);
    UnderIsBySegments(path, prefix);
    UnderIsBySegments(below, path);
    UnderIsBySegments(below, prefix);
  }

  predicate PageVisible(state: Option<State>, path: string)
  {
    !(state.Some? && state.value.authority == "realm" && PageIsService(path))
  }

  // ----- settings -----------------------------------------------------------------

  predicate SettingIsServiceOnly(service: Service, key: string)
  {
    || service.isPerProcess(key)
    || key in SERVICE_SETTING_KEYS
    || exists prefix :: prefix in SERVICE_SETTING_PREFIXES && Text.StartsWith(key, prefix)
  }

  /** A setting row that a realm administrator may not write. */
  predicate Kept(service: Service, key: string)
  {
    key in service.settings && SettingIsServiceOnly(service, key)
  }

  /** The keys a body names: each field's, and the text of its `key`. */
  predicate NamesKey(body: Body, key: string)
  {
    || key in body.fields
    || ("key" in body.fields && body.fields["key"].Text? && Text.Trim(body.fields["key"].text) == key)
  }

  method ServiceSettingsIn(service: Service, body: Body) returns (named: seq<string>)
    requires WellFormed(body)
    ensures forall key :: key in named <==> Kept(service, key) && NamesKey(body, key)
    ensures forall key :: key in named ==>
              key in body.fields
              || ("key" in body.fields && body.fields["key"].Text? && Text.Trim(body.fields["key"].text) == key)
    ensures forall i, j :: 0 <= i < j < |named| ==> named[i] != named[j]
  {
    named := [];
    for i := 0 to |body.keys|
      invariant forall key :: key in named <==> Kept(service, key) && key in body.keys[..i]
      invariant forall a, b :: 0 <= a < b < |named| ==> named[a] != named[b]
    {
      named := AddNamed(service, named, body.keys[i]);
      assert body.keys[..i + 1] == body.keys[..i] + [body.keys[i]];
    }
    assert body.keys[..|body.keys|] == body.keys;
    if "key" in body.fields && body.fields["key"].Text? {
      named := AddNamed(service, named, Text.Trim(body.fields["key"].text));
    }
  }

  method AddNamed(service: Service, named: seq<string>, key: string) returns (all: seq<string>)
    requires forall i, j :: 0 <= i < j < |named| ==> named[i] != named[j]
    ensures forall k :: k in all <==> k in named || (k == key && Kept(service, key))
    ensures forall i, j :: 0 <= i < j < |all| ==> all[i] != all[j]
  {
    all := named;
    if key in service.settings && SettingIsServiceOnly(service, key) && key !in named {
      all := named + [key];
    }
  }

  // ----- actions and reads ------------------------------------------------------------

  /** `String(body.name || '')`, before it is trimmed. */
  function Raw(body: Body, name: string): string
  {
    if name !in body.fields then ""
    else match body.fields[name]
      case Text(text) => text
      case Other(truthy, _, printed) => if truthy then printed else ""
  }

  function Said(body: Body, name: string): string
  {
    Text.Trim(Raw(body, name))
  }

  predicate Mirrored(body: Body)
  {
    && "mirror" in body.fields
    && match body.fields["mirror"]
       case Text(text) => text == "true"
       case Other(_, isTrue, printed) => isTrue || printed == "true"
  }

  /** The page's rule says the action reaches past the realm. */
  predicate ActionRefused(service: Service, path: string, body: Body, realm: string)
  {
    if path == "/admin/realms" then
      || Said(body, "action") == "create" || Said(body, "action") == "remove"
      || (Said(body, "id") != "" && Said(body, "id") != realm)
    else if path == "/admin/pki" then
      || Said(body, "action") == "build-root"
      || (Said(body, "scope") != "" && Said(body, "scope")[0] == '*')
    else if path == "/admin/scheduler" then
      || Said(body, "action") == "step-down"
      || (Said(body, "action") == "run"
          && (service.serviceJob(Said(body, "job")) || (Said(body, "realm") != "" && Said(body, "realm") != realm)))
    else if path == "/admin/risk" then
      || Said(body, "action") == "accept-terms"
      || (Said(body, "dataset") != "" && service.perRealm(Said(body, "dataset")).Some?
          && (!service.perRealm(Said(body, "dataset")).value || Said(body, "realm") != realm))
    else if path == "/admin/kerberos/trusts" then
      Said(body, "action") == "pair" || (Said(body, "action") == "rotate-key" && Mirrored(body))
    else if path == "/admin/keys/export" then Said(body, "key") == "tls-server"
    else if path == "/admin/keys" then Raw(body, "action") == "export" && Said(body, "key") == "tls-server"
    else false
  }

  /** What a field says: nothing where it is missing or empty, otherwise its text
      without the white space around it. */
  lemma SaidIs(body: Body, name: string)
    ensures name !in body.fields ==> Said(body, name) == ""
    ensures name in body.fields && body.fields[name].Text? ==> Said(body, name) == Text.Trim(body.fields[name].text)
    ensures name in body.fields && body.fields[name].Other? ==>
              Said(body, name) == if body.fields[name].truthy then Text.Trim(body.fields[name].printed) else ""
  {
  }

  const PAGES_WITH_RULES := [
    "/admin/realms", "/admin/pki", "/admin/scheduler", "/admin/risk", "/admin/kerberos/trusts",
    "/admin/keys/export", "/admin/keys"]

  /** Page by page, the acts a realm authority keeps. */
  lemma RealmsPageKeeps(service: Service, path: string, body: Body, realm: string)
    ensures path == "/admin/realms" ==>
              (!ActionRefused(service, path, body, realm) <==>
                 Said(body, "action") !in ["create", "remove"] && Said(body, "id") in ["", realm])
    ensures path == "/admin/pki" ==>
              (!ActionRefused(service, path, body, realm) <==>
                 Said(body, "action") != "build-root" && !Text.StartsWith(Said(body, "scope"), "*"))
    ensures path == "/admin/scheduler" ==>
              (!ActionRefused(service, path, body, realm) <==>
                 && Said(body, "action") != "step-down"
                 && (Said(body, "action") == "run" ==>
                       !service.serviceJob(Said(body, "job")) && Said(body, "realm") in ["", realm]))
  {
  }

  lemma OtherPagesKeep(service: Service, path: string, body: Body, realm: string)
    ensures path == "/admin/risk" ==>
              (!ActionRefused(service, path, body, realm) <==>
                 && Said(body, "action") != "accept-terms"
                 && (Said(body, "dataset") == "" || service.perRealm(Said(body, "dataset")).None?
                     || (service.perRealm(Said(body, "dataset")) == Some(true) && Said(body, "realm") == realm)))
    ensures path == "/admin/kerberos/trusts" ==>
              (!ActionRefused(service, path, body, realm) <==>
                 && Said(body, "action") != "pair"
                 && (Said(body, "action") == "rotate-key" && "mirror" in body.fields ==>
                       match body.fields["mirror"]
                       case Text(text) => text != "true"
                       case Other(_, isTrue, printed) => !isTrue && printed != "true"))
    ensures path == "/admin/keys/export" ==>
              (!ActionRefused(service, path, body, realm) <==> Said(body, "key") != "tls-server")
    ensures path == "/admin/keys" ==>
              (!ActionRefused(service, path, body, realm) <==>
                 Raw(body, "action") != "export" || Said(body, "key") != "tls-server")
    ensures path !in PAGES_WITH_RULES ==> !ActionRefused(service, path, body, realm)
  {
  }

  const REALM_READS := ["/admin/risk", "/admin/risk-scoring", "/admin/realms"]

  function NamedRealm(queryRealm: Option<string>): string
  {
    if queryRealm.Some? then Text.Trim(queryRealm.value) else ""
  }

  method RefusalFor(service: Service, state: Option<State>, path: string, body: Option<Body>,
                    queryRealm: Option<string>)
    returns (refusal: Option<Refusal>)
    requires body.Some? ==> WellFormed(body.value)
    ensures refusal.None? <==> Allowed(service, state, path, body, queryRealm)
    ensures refusal == Some(ServicePage) <==> !PageVisible(state, path)
    ensures refusal.Some? && refusal.value.AnotherRealmRead? <==>
              && PageVisible(state, path) && state.Some? && state.value.authority == "realm"
              && path in REALM_READS && NamedRealm(queryRealm) !in ["", state.value.identityRealm]
    ensures refusal.Some? && refusal.value.AnotherRealmRead? ==> refusal.value.named == NamedRealm(queryRealm)
    ensures refusal == Some(ServiceAction) <==>
              && PageVisible(state, path) && state.Some? && state.value.authority == "realm"
              && !(path in REALM_READS && NamedRealm(queryRealm) !in ["", state.value.identityRealm])
              && body.Some? && ActionRefused(service, path, body.value, state.value.identityRealm)
    ensures refusal.Some? && refusal.value.ServiceSettings? ==>
              && body.Some?
              && forall key :: key in refusal.value.settings <==> Kept(service, key) && NamesKey(body.value, key)
  {
    if state.None? || state.value.authority != "realm" {
      return None;
    }
    if PageIsService(path) {
      return Some(ServicePage);
    }
    var realm, named := state.value.identityRealm, NamedRealm(queryRealm);
    if path in REALM_READS && named != "" && named != realm {
      return Some(AnotherRealmRead(named));
    }
    if body.Some? {
      if ActionRefused(service, path, body.value, realm) {
        return Some(ServiceAction);
      }
      var settings := ServiceSettingsIn(service, body.value);
      if |settings| > 0 {
        assert settings[0] in settings;
        return Some(ServiceSettings(settings));
      }
    }
    refusal := None;
  }

  /** A realm administrator's request that goes through: about no service page,
      reading and changing no realm but their own, and naming no setting kept for
      the service. */
  ghost predicate Allowed(service: Service, state: Option<State>, path: string, body: Option<Body>,
                          queryRealm: Option<string>)
  {
    state.Some? && state.value.authority == "realm" ==>
      && !PageIsService(path)
      && (path in REALM_READS && NamedRealm(queryRealm) != "" ==> NamedRealm(queryRealm) == state.value.identityRealm)
      && (body.Some? ==>
            && !ActionRefused(service, path, body.value, state.value.identityRealm)
            && forall key :: NamesKey(body.value, key) ==> !Kept(service, key))
  }

  /** Nobody but a realm authority is refused anything here. */
  lemma ServiceAuthorityReachesAll(service: Service, state: Option<State>, path: string, body: Option<Body>,
                                   queryRealm: Option<string>)
    requires state.None? || state.value.authority != "realm"
    ensures Allowed(service, state, path, body, queryRealm) && PageVisible(state, path)
  {
  }

  /** The settings kept from a realm authority: the process's own, those listed one by
      one, and those of the service's groups; and a body names a setting by a field or
      by what its field "key" says. */
  lemma KeptIs(service: Service, key: string, body: Body)
    ensures Kept(service, key) <==>
            && key in service.settings
            && (|| service.isPerProcess(key) || key in SERVICE_SETTING_KEYS
                || exists prefix :: prefix in SERVICE_SETTING_PREFIXES && Text.StartsWith(key, prefix))
    ensures key in body.fields ==> NamesKey(body, key)
    ensures "key" in body.fields && body.fields["key"].Text? ==> NamesKey(body, Text.Trim(body.fields["key"].text))
  {
  }

  /** No page of the service, nor anything below one. */
  ghost predicate OffServicePages(path: string)
  {
    path !in SERVICE_PAGES && forall page, below :: page in SERVICE_PAGES ==> path != page + "/" + below
  }

  lemma UnderMeans(path: string, page: string)
    ensures Under(path, page) <==> path == page || exists below :: path == page + "/" + below
  {
    if Text.StartsWith(path, page + "/") {
      assert path == page + "/" + path[|page| + 1..];
    }
    if below :| path == page + "/" + below {
      assert (page + "/" + below)[..|page + "/"|] == page + "/";
    }
  }

  lemma OffIsNotService(path: string)
    ensures OffServicePages(path) <==> !PageIsService(path)
  {
    forall page { UnderMeans(path, page); }
    if !PageIsService(path) {
      forall page | page in SERVICE_PAGES ensures !Under(path, page) {}
    }
  }

  /** What a realm authority may read: no service page, and on the pages that take a
      realm no realm named but its own. */
  lemma ReadsStayInTheRealm(service: Service, state: State, path: string, queryRealm: Option<string>)
    requires state.authority == "realm"
    ensures Allowed(service, Some(state), path, None, queryRealm) <==>
            && OffServicePages(path)
            && (queryRealm.Some? && path in ["/admin/risk", "/admin/risk-scoring", "/admin/realms"] ==>
                  Text.Trim(queryRealm.value) in ["", state.identityRealm])
  {
    OffIsNotService(path);
  }

  /** What an allowed write of a realm authority can touch, page by page, whatever
      else it carries. */
  lemma WritesStayInTheRealm(service: Service, state: State, path: string, body: Body, queryRealm: Option<string>)
    requires state.authority == "realm" && Allowed(service, Some(state), path, Some(body), queryRealm)
    ensures OffServicePages(path)
    ensures path == "/admin/realms" ==>
              Said(body, "id") in ["", state.identityRealm] && Said(body, "action") !in ["create", "remove"]
    ensures path == "/admin/pki" ==> Said(body, "action") != "build-root" && !Text.StartsWith(Said(body, "scope"), "*")
    ensures path == "/admin/scheduler" ==> Said(body, "action") != "step-down"
    ensures path == "/admin/risk" ==> Said(body, "action") != "accept-terms"
    ensures path == "/admin/kerberos/trusts" ==> Said(body, "action") != "pair"
    ensures path == "/admin/keys/export" ==> Said(body, "key") != "tls-server"
    ensures path == "/admin/scheduler" && Said(body, "action") == "run" ==>
              Said(body, "realm") in ["", state.identityRealm] && !service.serviceJob(Said(body, "job"))
    ensures path == "/admin/risk" && Said(body, "dataset") != "" && service.perRealm(Said(body, "dataset")).Some? ==>
              Said(body, "realm") == state.identityRealm && service.perRealm(Said(body, "dataset")) == Some(true)
    ensures forall key, prefix ::
              key in service.settings && prefix in SERVICE_SETTING_PREFIXES && NamesKey(body, key) ==>
              !Text.StartsWith(key, prefix)
  {
    RealmsPageKeeps(service, path, body, state.identityRealm);
    OtherPagesKeep(service, path, body, state.identityRealm);
    OffIsNotService(path);
    forall key, prefix | key in service.settings && prefix in SERVICE_SETTING_PREFIXES && NamesKey(body, key)
      ensures !Text.StartsWith(key, prefix)
    {
      assert !Kept(service, key);
    }
  }

  /** Hiding a row and refusing its page are one decision, and a page that is
      shown may still be refused only for what the request says. */
  lemma HiddenIsRefused(service: Service, state: Option<State>, path: string, below: string, body: Option<Body>,
                        queryRealm: Option<string>)
    requires !PageVisible(state, path) && Under(below, path)
    ensures !PageVisible(state, below) && !Allowed(service, state, below, body, queryRealm)
  {
    ServicePagesCoverBelow(path, below);
  }

  lemma ShownCanBeRead(service: Service, state: Option<State>, path: string)
    ensures PageVisible(state, path) <==> Allowed(service, state, path, None, None)
  {
  }
}
