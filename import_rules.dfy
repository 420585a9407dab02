/**
 * The per-user rules of the import: the claim tables, the user object built
 * from an Okta profile, normalisation and filtering of mapped fields, the
 * duplicate check, the lookup of an existing GLPI account, and the manager
 * reference of a profile.
 */
module ImportRules {
  import opened Php
  import opened Repository

  /** Plugin configuration: option name => stored value. */
  type Config = map<string, string>

  /** The first row of glpi_oidc_mapping: OIDC claim => chosen claim (NULL columns absent). */
  type Mappings = map<string, string>

  /** A user as a PHP array of fields. */
  type Profile = map<string, Json>

  /** OIDC claim => Okta API profile field. */
  const ApiMappings: map<string, string> := map[
    "sub" := "id",
    "name" := "displayName",
    "profile" := "profileUrl",
    "nickname" := "nickName",
    "family_name" := "lastName",
    "given_name" := "firstName",
    "email" := "email",
    "phone_number" := "mobilePhone",
    "preferred_username" := "login",
    "username" := "login",
    "manager" := "manager"]

  /** The claims of ApiMappings in the order the table lists them. */
  const ApiClaims: seq<string> := ["sub", "name", "profile", "nickname", "family_name", "given_name",
                                   "email", "phone_number", "preferred_username", "username", "manager"]

  /** OIDC claim => GLPI user column. */
  const OidcTranslation: map<string, string> := map[
    "name" := "name",
    "given_name" := "firstname",
    "family_name" := "realname",
    "phone_number" := "phone",
    "email" := "email",
    "username" := "name",
    "manager" := "users_id_supervisor"]

  /** The claims of OidcTranslation in the order the table lists them. */
  const OidcClaims: seq<string> := ["name", "given_name", "family_name", "phone_number", "email", "username", "manager"]

  lemma ApiClaimsAreTheTable()
    ensures forall c :: c in ApiClaims <==> c in ApiMappings
  {
  }

  lemma OidcClaimsAreTheTable()
    ensures forall c :: c in OidcClaims <==> c in OidcTranslation
  {
  }

  /** `isset($config[$n]) && $config[$n] == 1`, for the stored text "1". */
  predicate IsOn(config: Config, name: string) {
    name in config && config[name] == "1"
  }

  /** `$config[$n]` read as text: a missing option reads as "". */
  function Setting(config: Config, name: string): string {
    if name in config then config[name] else ""
  }

  // ---------------------------------------------------------------------
  // buildUserObject

  /** The user object: every claim whose Okta field is set, holding that field's value. */
  function UserObjectOf(user: Profile): Profile {
    map c | c in ApiMappings && Isset(user, ApiMappings[c]) :: user[ApiMappings[c]]
  }

  /** The user object holds exactly the claims whose Okta field is set, each with that field's (non-null) value. */
  lemma UserObjectFields(user: Profile)
    ensures forall c :: c in UserObjectOf(user) <==> c in ApiMappings && Isset(user, ApiMappings[c])
    ensures forall c :: c in UserObjectOf(user) ==>
              c in ApiMappings && UserObjectOf(user)[c] == Get(user, ApiMappings[c]) && UserObjectOf(user)[c] != Null
  {
  }

  /** Fields outside the Okta profile never reach the user object. */
  lemma UserObjectIgnoresUnmappedFields(user: Profile, f: string, v: Json)
    requires forall c :: c in ApiMappings ==> ApiMappings[c] != f
    ensures UserObjectOf(user[f := v]) == UserObjectOf(user)
  {
    var a, b := UserObjectOf(user[f := v]), UserObjectOf(user);
    UserObjectFields(user[f := v]);
    UserObjectFields(user);
    assert forall c :: c in a <==> c in b;
    assert forall c :: c in a ==> a[c] == b[c];
  }

  /** Both username claims read the Okta login. */
  lemma UsernameClaimsShareLogin(user: Profile)
    requires Isset(user, "login")
    ensures var o := UserObjectOf(user);
            "preferred_username" in o && "username" in o && o["preferred_username"] == o["username"] == user["login"]
  {
    UserObjectFields(user);
  }

  // ---------------------------------------------------------------------
  // Normalisation and filtering

  /**
   * What the import cannot compute itself: preg_replace with an empty
   * replacement, preg_match, the rules engine deciding whether a new account
   * may be created (given login and e-mail), and Oidc::addUserData's rewrite
   * of a user row.
   */
  datatype Host = Host(
    strip: (string, string) -> string,
    matches: (string, string) -> bool,
    admits: (Json, string) -> bool,
    writeProfile: (UserRec, Profile) -> UserRec)

  /** The Okta field a claim's normalise/filter options act on, when the mapping row provides one. */
  function InputName(mappings: Mappings, key: string): Option<string> {
    if key in mappings && mappings[key] in ApiMappings then Some(ApiMappings[mappings[key]]) else None
  }

  function NormPattern(config: Config, key: string): string {
    "/" + Setting(config, "norm_" + key) + "/"
  }

  function FilterPattern(config: Config, key: string): string {
    "/" + Setting(config, "filter_" + key) + "/"
  }

  /** The value of `$user[$f] ?? ''` as a string. */
  function FieldText(user: Profile, f: string): string {
    TextOf(Get(user, f))
  }

  /**
   * One iteration of the loop: normalise the field (rejecting the user when
   * that empties it), then filter the possibly normalised value.
   */
  function NormalizeStep(key: string, user: Profile, config: Config, mappings: Mappings, host: Host): Option<Profile> {
    match InputName(mappings, key)
    case None => Some(user)
    case Some(f) =>
      var normalised :=
        if IsOn(config, "use_norm_" + key)
        then user[f := Str(host.strip(NormPattern(config, key), FieldText(user, f)))]
        else user;
      if IsOn(config, "use_norm_" + key) && FieldText(normalised, f) == "" then None
      else if IsOn(config, "use_filter_" + key) && !host.matches(FilterPattern(config, key), FieldText(normalised, f)) then None
      else Some(normalised)
  }

  /** The loop over `keys`: the first rejection ends it. */
  function Transform(keys: seq<string>, user: Profile, config: Config, mappings: Mappings, host: Host): Option<Profile> {
    if keys == [] then Some(user)
    else
      match NormalizeStep(keys[0], user, config, mappings, host)
      case None => None
      case Some(next) => Transform(keys[1..], next, config, mappings, host)
  }

  /**
   * After an accepted step the normalised field holds the stripped value,
   * which is not empty, and the filter accepted that stripped value.
   */
  lemma NormalizeStepAccepted(key: string, user: Profile, config: Config, mappings: Mappings, host: Host, f: string)
    requires InputName(mappings, key) == Some(f)
    requires NormalizeStep(key, user, config, mappings, host).Some?
    ensures var next := NormalizeStep(key, user, config, mappings, host).value;
            var stripped := host.strip(NormPattern(config, key), FieldText(user, f));
            && (IsOn(config, "use_norm_" + key) ==> next == user[f := Str(stripped)] && stripped != "")
            && (!IsOn(config, "use_norm_" + key) ==> next == user)
            && (IsOn(config, "use_filter_" + key) ==> host.matches(FilterPattern(config, key), FieldText(next, f)))
  {
  }

  /** A step rejects exactly when normalising empties the field or the filter refuses the (normalised) value. */
  lemma NormalizeStepRejects(key: string, user: Profile, config: Config, mappings: Mappings, host: Host, f: string)
    requires InputName(mappings, key) == Some(f)
    ensures var subject := if IsOn(config, "use_norm_" + key)
                           then host.strip(NormPattern(config, key), FieldText(user, f))
                           else FieldText(user, f);
            NormalizeStep(key, user, config, mappings, host).None?
            <==> (IsOn(config, "use_norm_" + key) && subject == "")
                 || (IsOn(config, "use_filter_" + key) && !host.matches(FilterPattern(config, key), subject))
  {
  }

  /** Without any normalise or filter option switched on, the user passes unchanged. */
  lemma {:induction false} TransformWithoutOptions(keys: seq<string>, user: Profile, config: Config, mappings: Mappings, host: Host)
    requires forall i :: 0 <= i < |keys| ==> !IsOn(config, "use_norm_" + keys[i]) && !IsOn(config, "use_filter_" + keys[i])
    ensures Transform(keys, user, config, mappings, host) == Some(user)
  {
    if keys != [] {
      assert !IsOn(config, "use_norm_" + keys[0]) && !IsOn(config, "use_filter_" + keys[0]);
      assert NormalizeStep(keys[0], user, config, mappings, host) == Some(user);
      assert forall i :: 0 <= i < |keys[1..]| ==> keys[1..][i] == keys[i + 1];
      TransformWithoutOptions(keys[1..], user, config, mappings, host);
    }
  }

  /** Only the fields some key normalises can change; every other field keeps its value. */
  lemma {:induction false} TransformFrame(keys: seq<string>, user: Profile, config: Config, mappings: Mappings, host: Host, g: string)
    requires Transform(keys, user, config, mappings, host).Some?
    requires forall i :: 0 <= i < |keys| ==> InputName(mappings, keys[i]) != Some(g)
    ensures var out := Transform(keys, user, config, mappings, host).value;
            (g in out <==> g in user) && Get(out, g) == Get(user, g)
  {
    if keys != [] {
      var next := NormalizeStep(keys[0], user, config, mappings, host).value;
      assert InputName(mappings, keys[0]) != Some(g);
      assert (g in next <==> g in user) && Get(next, g) == Get(user, g);
      assert forall i :: 0 <= i < |keys[1..]| ==> keys[1..][i] == keys[i + 1];
      TransformFrame(keys[1..], next, config, mappings, host, g);
    }
  }

  /** A rejecting step ends the loop, whatever the later keys would do. */
  lemma {:induction false} TransformStopsAtRejection(keys: seq<string>, user: Profile, config: Config, mappings: Mappings, host: Host, j: nat)
    requires j < |keys| && Transform(keys[..j], user, config, mappings, host).Some?
    requires NormalizeStep(keys[j], Transform(keys[..j], user, config, mappings, host).value, config, mappings, host).None?
    ensures Transform(keys, user, config, mappings, host).None?
  {
    if j > 0 {
      var next := NormalizeStep(keys[0], user, config, mappings, host);
      assert keys[..j][0] == keys[0] && keys[..j][1..] == keys[1..][..j - 1];
      assert next.Some?;
      TransformStopsAtRejection(keys[1..], next.value, config, mappings, host, j - 1);
    }
  }

  // ---------------------------------------------------------------------
  // The duplicate check of createOrUpdateUser

  /**
   * The profile field the duplicate check requires:
   * `API_MAPPINGS[$oidcMappings[$dup] ?? $dup]` with `$dup = $config['duplicate'] ?? 'email'`.
   */
  function DuplicateField(config: Config, mappings: Mappings): Option<string> {
    var dupKey := if "duplicate" in config then config["duplicate"] else "email";
    var claim := if dupKey in mappings then mappings[dupKey] else dupKey;
    if claim in ApiMappings then Some(ApiMappings[claim]) else None
  }

  /** A user reaches the account lookup only when the duplicate field is known and set. */
  predicate PassesDuplicateCheck(user: Profile, config: Config, mappings: Mappings) {
    DuplicateField(config, mappings).Some? && Isset(user, DuplicateField(config, mappings).value)
  }

  // ---------------------------------------------------------------------
  // findExistingUser

  datatype Existing = Found(id: nat) | NotFound | Fatal

  /** A value `escape(string $value)` accepts: null and arrays raise a TypeError. */
  predicate Escapable(v: Json) {
    v != Null && !IsArray(v)
  }

  /** `WHERE <column> = '<value>'` over glpi_users LEFT JOIN glpi_useremails. */
  predicate ColumnMatches(rec: UserRec, column: string, value: string) {
    if column == "name" then rec.name == value
    else if column == "firstname" then rec.firstname == value
    else if column == "realname" then rec.realname == value
    else if column == "phone" then rec.phone == value
    else if column == "email" then value in rec.emails
    else if column == "users_id_supervisor" then NatToString(rec.supervisor) == value
    else false
  }

  /** The name-based fallback: an LDAP or external account with that login name. */
  predicate NameTaken(rec: UserRec, name: string) {
    rec.name == name && (rec.authType == EXTERNAL || rec.authType == LDAP)
  }

  /** The profile field `findExistingUser` reads for the duplicate key, with no defaults. */
  function LookupField(config: Config, mappings: Mappings): string {
    var dup := Setting(config, "duplicate");
    if dup in mappings && mappings[dup] in ApiMappings then ApiMappings[mappings[dup]] else ""
  }

  /** The field holding the login name: `API_MAPPINGS[$oidcMappings['name']]`. */
  function LoginField(mappings: Mappings): string {
    if "name" in mappings && mappings["name"] in ApiMappings then ApiMappings[mappings["name"]] else ""
  }

  /** The first account whose `column` equals `value` (the primary query, over every account). */
  function ColumnLookup(rows: seq<UserRec>, column: string, value: string): (r: Option<nat>)
    ensures r.None? <==> forall i :: 0 <= i < |rows| ==> !ColumnMatches(rows[i], column, value)
    ensures r.Some? ==> exists i :: 0 <= i < |rows| && rows[i].id == r.value && ColumnMatches(rows[i], column, value)
                                    && forall j :: 0 <= j < i ==> !ColumnMatches(rows[j], column, value)
  {
    FirstId(rows, rec => ColumnMatches(rec, column, value))
  }

  /** The first LDAP or external account with the login name (the fallback query). */
  function NameLookup(rows: seq<UserRec>, name: string): (r: Option<nat>)
    ensures r.None? <==> forall i :: 0 <= i < |rows| ==> !NameTaken(rows[i], name)
    ensures r.Some? ==> exists i :: 0 <= i < |rows| && rows[i].id == r.value && NameTaken(rows[i], name)
                                    && forall j :: 0 <= j < i ==> !NameTaken(rows[j], name)
  {
    FirstId(rows, rec => NameTaken(rec, name))
  }

  /**
   * The existing account of a user: first the duplicate column, over every
   * account; when that finds nothing (or the falsy id 0), an LDAP or external
   * account with the same login name. Values the escape function refuses,
   * and a duplicate key without a GLPI column (an SQL syntax error), end the
   * run.
   */
  function FindExisting(rows: seq<UserRec>, user: Profile, config: Config, mappings: Mappings): (r: Existing)
    ensures var dup := Setting(config, "duplicate");
            var value := Get(user, LookupField(config, mappings));
            var login := Get(user, LoginField(mappings));
            r.Fatal? <==> !Escapable(value) || dup !in OidcTranslation
                          || (ColumnLookup(rows, OidcTranslation[dup], TextOf(value)) in {None, Some(0)} && !Escapable(login))
    ensures r.Found? ==>
              var primary := ColumnLookup(rows, OidcTranslation[Setting(config, "duplicate")],
                                          TextOf(Get(user, LookupField(config, mappings))));
              var byName := NameLookup(rows, TextOf(Get(user, LoginField(mappings))));
              && (primary.Some? && primary.value != 0 ==> r.id == primary.value)
              && (primary.None? || primary == Some(0) ==> r.id == if byName.Some? then byName.value else 0)
    ensures r.Found? ==> exists i :: 0 <= i < |rows| && rows[i].id == r.id
    ensures r.NotFound? ==> Setting(config, "duplicate") in OidcTranslation
    ensures r.NotFound? ==> forall i :: 0 <= i < |rows| ==>
              !ColumnMatches(rows[i], OidcTranslation[Setting(config, "duplicate")], TextOf(Get(user, LookupField(config, mappings))))
              && !NameTaken(rows[i], TextOf(Get(user, LoginField(mappings))))
  {
    var dup := Setting(config, "duplicate");
    var value := Get(user, LookupField(config, mappings));
    if !Escapable(value) || dup !in OidcTranslation then Fatal
    else
      var primary := ColumnLookup(rows, OidcTranslation[dup], TextOf(value));
      if primary.Some? && primary.value != 0 then Found(primary.value)
      else
        // `if (!$ID)`: no match, or the falsy id 0, tries the login name.
        var login := Get(user, LoginField(mappings));
        if !Escapable(login) then Fatal
        else
          match NameLookup(rows, TextOf(login))
          case Some(id) => Found(id)
          case None => if primary.Some? then Found(0) else NotFound
  }

  /**
   * When the configuration names the duplicate key and the mapping row maps
   * it, the lookup reads the very field the duplicate check found set.
   */
  lemma LookupAgreesWithDuplicateCheck(user: Profile, config: Config, mappings: Mappings)
    requires "duplicate" in config && config["duplicate"] in mappings
    requires PassesDuplicateCheck(user, config, mappings)
    ensures LookupField(config, mappings) == DuplicateField(config, mappings).value
    ensures Get(user, LookupField(config, mappings)) != Null
  {
  }

  /**
   * Without a `duplicate` option the duplicate check falls back to the e-mail
   * field, but the lookup reads the field named by mapping "" instead; with no
   * such mapping that field is missing and escaping it ends the run.
   */
  lemma MissingDuplicateOptionIsFatal(rows: seq<UserRec>, user: Profile, config: Config, mappings: Mappings)
    requires "duplicate" !in config && "" !in mappings && "" !in user
    ensures FindExisting(rows, user, config, mappings) == Fatal
  {
  }

  // ---------------------------------------------------------------------
  // resolveManagerId

  /** The manager a profile names: its GLPI id when found, and the address for a later retry. */
  datatype ManagerRef = ManagerRef(id: Option<nat>, email: Option<string>)

  /** resolveManagerId on a given table: the `managerId` profile field, when truthy, is looked up by e-mail. */
  function ManagerOf(rows: seq<UserRec>, authTypes: seq<int>, user: Profile): (r: ManagerRef)
    ensures !Truthy(Get(user, "managerId")) ==> r == ManagerRef(None, None)
    ensures Truthy(Get(user, "managerId")) ==> r.email == Some(TextOf(user["managerId"]))
    ensures r.id.Some? ==> r.email.Some? && exists i :: 0 <= i < |rows| && rows[i].id == r.id.value
                                                       && HasEmail(rows[i], r.email.value, authTypes)
    ensures Truthy(Get(user, "managerId")) ==> r.id == EmailLookup(rows, TextOf(user["managerId"]), authTypes)
  {
    var v := Get(user, "managerId");
    if !Truthy(v) then ManagerRef(None, None)
    else ManagerRef(EmailLookup(rows, TextOf(v), authTypes), Some(TextOf(v)))
  }

  /** The embedded `manager` record plays no part: only `managerId` names the manager. */
  lemma ManagerRecordIgnored(rows: seq<UserRec>, authTypes: seq<int>, user: Profile, m: Json)
    ensures ManagerOf(rows, authTypes, user["manager" := m]) == ManagerOf(rows, authTypes, user)
  {
    assert Get(user["manager" := m], "managerId") == Get(user, "managerId");
  }
}
