/**
 * What one import run does to the GLPI user table, as functions of the state
 * before it: placing one Okta user (create, update or link), the deferred
 * manager assignments, the deactivation sweep, the collection of group
 * members, and the whole run.
 */
module ImportFlow {
  import opened Php
  import opened Api
  import opened Groups
  import opened Repository
  import opened ImportRules

  /** The part of the world an import touches: the user table and the pending manager assignments. */
  datatype State = State(rows: seq<UserRec>, nextId: nat, log: seq<Write>, pending: OMap<nat, string>)

  /** The invariant of the user table together with a well-formed pending table. */
  ghost predicate StateOk(st: State) {
    && 1 <= st.nextId && UniqueIds(st.rows)
    && (forall i :: 0 <= i < |st.rows| ==> 1 <= st.rows[i].id < st.nextId)
    && st.pending.Valid()
  }

  /**
   * The outcome of createOrUpdateUser: `false` (filtered out), the pair
   * `[listedUser, importedUser]` (null entries as None), or an error that
   * ends the run.
   */
  datatype Placement = Rejected | Placed(listed: Option<Profile>, imported: Option<Profile>) | Failed

  // ---------------------------------------------------------------------
  // createOrUpdateUser and handleUserCreationOrUpdate

  /** A found manager is written at once; an unknown one is remembered by address for the second pass. */
  function LinkManager(st: State, id: nat, mgr: ManagerRef): (r: State)
    ensures r.nextId == st.nextId && r.rows == (if mgr.id.Some? then WithSupervisor(st.rows, id, mgr.id.value) else st.rows)
    ensures mgr.id.Some? ==> r.log == st.log + [SetSupervisor(id, mgr.id.value)] && r.pending == st.pending
    ensures mgr.id.None? && mgr.email.Some? ==> r.log == st.log && r.pending == st.pending.Put(id, mgr.email.value)
    ensures mgr.id.None? && mgr.email.None? ==> r == st
    ensures st.pending.Valid() ==> r.pending.Valid()
  {
    if mgr.id.Some? then st.(rows := WithSupervisor(st.rows, id, mgr.id.value), log := st.log + [SetSupervisor(id, mgr.id.value)])
    else if mgr.email.Some? then st.(pending := st.pending.Put(id, mgr.email.value))
    else st
  }

  /** The user-object key the mapping row chooses for group memberships, when it is not empty. */
  function GroupKey(mappings: Mappings): Option<string> {
    if "group" in mappings && TruthyString(mappings["group"]) then Some(mappings["group"]) else None
  }

  /** The user object after it received the groups and the found supervisor. */
  function Completed(obj: Profile, user: Profile, mappings: Mappings, mgr: ManagerRef): Profile {
    var withGroup := if GroupKey(mappings).Some? then obj[GroupKey(mappings).value := Get(user, "group")] else obj;
    if mgr.id.Some? then withGroup["users_id_supervisor" := Int(mgr.id.value)] else withGroup
  }

  /**
   * The completed object keeps every field of the built one, holds the groups
   * under the group key and the found supervisor, and nothing else.
   */
  lemma CompletedFields(obj: Profile, user: Profile, mappings: Mappings, mgr: ManagerRef)
    ensures forall k :: k in obj ==> k in Completed(obj, user, mappings, mgr)
    ensures GroupKey(mappings).Some? && GroupKey(mappings).value != "users_id_supervisor"
            ==> GroupKey(mappings).value in Completed(obj, user, mappings, mgr)
                && Completed(obj, user, mappings, mgr)[GroupKey(mappings).value] == Get(user, "group")
    ensures mgr.id.Some? ==> "users_id_supervisor" in Completed(obj, user, mappings, mgr)
                             && Completed(obj, user, mappings, mgr)["users_id_supervisor"] == Int(mgr.id.value)
    ensures forall k :: k in Completed(obj, user, mappings, mgr) && k !in obj ==>
              Some(k) == GroupKey(mappings) || (k == "users_id_supervisor" && mgr.id.Some?)
  {
  }

  /** The data handed to Oidc::addUserData: the scalar fields, and the group field even when it is a list. */
  function OidcPayload(o: Profile, mappings: Mappings): Profile {
    var scalars := map k | k in o && !IsArray(o[k]) :: o[k];
    match GroupKey(mappings)
    case Some(g) => if Isset(o, g) then scalars[g := o[g]] else scalars
    case None => scalars
  }

  /** The payload is a part of the object that holds every scalar field; only the group field may be a list. */
  lemma OidcPayloadFields(o: Profile, mappings: Mappings)
    ensures forall k :: k in OidcPayload(o, mappings) ==> k in o && OidcPayload(o, mappings)[k] == o[k]
    ensures forall k :: k in o && !IsArray(o[k]) ==> k in OidcPayload(o, mappings)
    ensures forall k :: k in OidcPayload(o, mappings) && IsArray(OidcPayload(o, mappings)[k]) ==> GroupKey(mappings) == Some(k)
  {
  }

  /** The row User::add creates for a new external account named after the (unescaped) login. */
  function NewAccount(user: Profile, mappings: Mappings): (r: UserRec)
    ensures r.authType == EXTERNAL && r.isActive && r.emails == [] && r.supervisor == 0
    ensures r.name == StripSlashes(TextOf(Get(user, LoginField(mappings))))
  {
    UserRec(0, StripSlashes(TextOf(Get(user, LoginField(mappings)))), "", "", "", [], EXTERNAL, true, 0)
  }

  /** The account a placement writes to: the existing one, or the next id when one is created. */
  function TargetId(st: State, existing: Option<nat>): nat {
    if existing.Some? then existing.value else st.nextId
  }

  /** The table once the account exists: unchanged for an existing one, one new row otherwise. */
  function WithAccount(st: State, existing: Option<nat>, user: Profile, mappings: Mappings): State {
    if existing.Some? then st
    else st.(rows := st.rows + [NewAccount(user, mappings).(id := st.nextId)], nextId := st.nextId + 1,
             log := st.log + [Created(st.nextId)])
  }

  /** The table after Oidc::addUserData wrote `data` to account `id`. */
  function WithData(st: State, id: nat, data: Profile, host: Host): State {
    st.(rows := WithProfile(st.rows, id, data, host.writeProfile), log := st.log + [ProfileWritten(id, data)])
  }

  /**
   * handleUserCreationOrUpdate: create the account when there is none (unless
   * the rules refuse it), write the profile, link the manager, and list and
   * report the user object with its GLPI id.
   */
  function Handle(st: State, existing: Option<nat>, user: Profile, obj: Profile, mappings: Mappings,
                  mgr: ManagerRef, host: Host): (r: (Placement, State))
    ensures st.pending.Valid() ==> r.1.pending.Valid()
  {
    if existing.None? && !host.admits(Get(user, LoginField(mappings)), TextOf(Get(user, "email"))) then
      (Placed(None, None), st)
    else
      var id := TargetId(st, existing);
      var o := Completed(obj, user, mappings, mgr);
      var written := WithData(WithAccount(st, existing, user, mappings), id, OidcPayload(o, mappings), host);
      (Placed(Some(o["id" := Int(id)]), Some(o["id" := Int(id)])), LinkManager(written, id, mgr))
  }

  /**
   * The part of createOrUpdateUser after the filters and the duplicate check:
   * look for an existing account, then create or update it; an account found
   * outside a full import only gets its manager linked.
   */
  function PlaceAccepted(st: State, user: Profile, config: Config, mappings: Mappings, fullImport: bool,
                         host: Host, authTypes: seq<int>): (r: (Placement, State))
    ensures st.pending.Valid() ==> r.1.pending.Valid()
  {
    var mgr := ManagerOf(st.rows, authTypes, user);
    var obj := UserObjectOf(user);
    match FindExisting(st.rows, user, config, mappings)
    case Fatal => (Failed, st)
    case NotFound => Handle(st, None, user, obj, mappings, mgr, host)
    case Found(id) =>
      // The id 0 is falsy: such a match is treated as no match.
      var existing := if id == 0 then None else Some(id);
      if existing.None? || fullImport then Handle(st, existing, user, obj, mappings, mgr, host)
      else (Placed(Some(obj["id" := Int(id)]), None), LinkManager(st, id, mgr))
  }

  /** createOrUpdateUser: normalise and filter, apply the duplicate check, then place the user. */
  function CreateOrUpdate(st: State, user0: Profile, config: Config, mappings: Mappings, fullImport: bool,
                          host: Host, authTypes: seq<int>): (r: (Placement, State))
    ensures st.pending.Valid() ==> r.1.pending.Valid()
  {
    match Transform(OidcClaims, user0, config, mappings, host)
    case None => (Rejected, st)
    case Some(user) =>
      if !PassesDuplicateCheck(user, config, mappings) then (Rejected, st)
      else PlaceAccepted(st, user, config, mappings, fullImport, host, authTypes)
  }

  /** A placement keeps the table and pending invariant. */
  lemma HandleKeepsState(st: State, existing: Option<nat>, user: Profile, obj: Profile, mappings: Mappings,
                         mgr: ManagerRef, host: Host)
    requires StateOk(st)
    requires existing.Some? ==> 1 <= existing.value < st.nextId
    ensures StateOk(Handle(st, existing, user, obj, mappings, mgr, host).1)
  {
    if !(existing.None? && !host.admits(Get(user, LoginField(mappings)), TextOf(Get(user, "email")))) {
      var id := TargetId(st, existing);
      var a := WithAccount(st, existing, user, mappings);
      assert StateOk(a);
      var w := WithData(a, id, OidcPayload(Completed(obj, user, mappings, mgr), mappings), host);
      assert StateOk(w);
      LinkManagerKeepsState(w, id, mgr);
    }
  }

  /**
   * Nothing filtered out or failing changes the table: a rejected user and a
   * run-ending error leave the state as it was.
   */
  lemma RejectionChangesNothing(st: State, user: Profile, config: Config, mappings: Mappings, fullImport: bool,
                                host: Host, authTypes: seq<int>)
    requires CreateOrUpdate(st, user, config, mappings, fullImport, host, authTypes).0 in {Rejected, Failed}
    ensures CreateOrUpdate(st, user, config, mappings, fullImport, host, authTypes).1 == st
  {
  }

  /**
   * A user whose account the lookup found, outside a full import, is listed
   * with that id and not reported; at most the manager link is written.
   */
  lemma LinkOnlyWhenFoundWithoutFullImport(st: State, user0: Profile, config: Config, mappings: Mappings,
                                           host: Host, authTypes: seq<int>, user: Profile, id: nat)
    requires Transform(OidcClaims, user0, config, mappings, host) == Some(user)
    requires PassesDuplicateCheck(user, config, mappings)
    requires FindExisting(st.rows, user, config, mappings) == Found(id) && id != 0
    ensures var (p, r) := CreateOrUpdate(st, user0, config, mappings, false, host, authTypes);
            && p == Placed(Some(UserObjectOf(user)["id" := Int(id)]), None)
            && r == LinkManager(st, id, ManagerOf(st.rows, authTypes, user))
            && r.nextId == st.nextId && |r.log| <= |st.log| + 1
  {
  }

  /**
   * A new account gets the next id and an empty supervisor; the rows already
   * in the table are untouched (no existing row has that id).
   */
  lemma HandleCreates(st: State, user: Profile, obj: Profile, mappings: Mappings, mgr: ManagerRef, host: Host)
    requires StateOk(st)
    requires host.admits(Get(user, LoginField(mappings)), TextOf(Get(user, "email")))
    ensures var (p, r) := Handle(st, None, user, obj, mappings, mgr, host);
            && p.Placed? && p.listed.Some? && p.listed == p.imported
            && "id" in p.listed.value && p.listed.value["id"] == Int(st.nextId)
            && r.nextId == st.nextId + 1 && |r.rows| == |st.rows| + 1
            && r.rows[..|st.rows|] == st.rows && r.rows[|st.rows|].id == st.nextId
            && st.log + [Created(st.nextId)] <= r.log
  {
    var id := st.nextId;
    var rows1 := st.rows + [NewAccount(user, mappings).(id := id)];
    var data := OidcPayload(Completed(obj, user, mappings, mgr), mappings);
    var w := WithProfile(rows1, id, data, host.writeProfile);
    assert forall i :: 0 <= i < |st.rows| ==> rows1[i] == st.rows[i] && w[i] == st.rows[i];
    var r := Handle(st, None, user, obj, mappings, mgr, host).1;
    assert r.rows == if mgr.id.Some? then WithSupervisor(w, id, mgr.id.value) else w;
    assert forall i :: 0 <= i < |st.rows| ==> r.rows[i] == st.rows[i];
    assert r.rows[..|st.rows|] == st.rows;
  }

  /**
   * A user with no existing account whom the rules admit gets a new external
   * account with the next id, leaving the existing accounts as they were; it
   * is listed and reported with that id.
   */
  lemma NewUserIsCreated(st: State, user0: Profile, config: Config, mappings: Mappings, fullImport: bool,
                         host: Host, authTypes: seq<int>, user: Profile)
    requires StateOk(st)
    requires Transform(OidcClaims, user0, config, mappings, host) == Some(user)
    requires PassesDuplicateCheck(user, config, mappings)
    requires FindExisting(st.rows, user, config, mappings) == NotFound
    requires host.admits(Get(user, LoginField(mappings)), TextOf(Get(user, "email")))
    ensures var (p, r) := CreateOrUpdate(st, user0, config, mappings, fullImport, host, authTypes);
            && p.Placed? && p.listed.Some? && p.listed == p.imported
            && "id" in p.listed.value && p.listed.value["id"] == Int(st.nextId)
            && r.nextId == st.nextId + 1 && |r.rows| == |st.rows| + 1
            && r.rows[..|st.rows|] == st.rows && r.rows[|st.rows|].id == st.nextId
            && st.log + [Created(st.nextId)] <= r.log
  {
    var mgr := ManagerOf(st.rows, authTypes, user);
    assert CreateOrUpdate(st, user0, config, mappings, fullImport, host, authTypes)
        == Handle(st, None, user, UserObjectOf(user), mappings, mgr, host);
    HandleCreates(st, user, UserObjectOf(user), mappings, mgr, host);
  }

  /** A listed user always carries its GLPI id, and a reported user is the listed one. */
  lemma PlacedUsersCarryTheirId(st: State, user: Profile, config: Config, mappings: Mappings, fullImport: bool,
                                host: Host, authTypes: seq<int>)
    ensures var p := CreateOrUpdate(st, user, config, mappings, fullImport, host, authTypes).0;
            p.Placed? ==> (p.listed.Some? ==> "id" in p.listed.value && p.listed.value["id"].Int?)
                          && (p.imported.Some? ==> p.listed == p.imported)
                          && (p.listed.None? ==> p.imported.None?)
  {
  }

  /** A failed lookup ends the run: the user is neither listed nor reported, and nothing is written. */
  lemma LookupErrorFails(st: State, user0: Profile, config: Config, mappings: Mappings, fullImport: bool,
                         host: Host, authTypes: seq<int>, user: Profile)
    requires Transform(OidcClaims, user0, config, mappings, host) == Some(user)
    requires PassesDuplicateCheck(user, config, mappings)
    requires FindExisting(st.rows, user, config, mappings) == Fatal
    ensures CreateOrUpdate(st, user0, config, mappings, fullImport, host, authTypes) == (Failed, st)
  {
  }

  /**
   * A user without an account (no match, or only the falsy id 0) whom the
   * rules refuse to provision is placed as `[null, null]`: neither listed nor
   * reported, and nothing is written.
   */
  lemma RefusedProvisioningIsNull(st: State, user0: Profile, config: Config, mappings: Mappings, fullImport: bool,
                                  host: Host, authTypes: seq<int>, user: Profile)
    requires Transform(OidcClaims, user0, config, mappings, host) == Some(user)
    requires PassesDuplicateCheck(user, config, mappings)
    requires FindExisting(st.rows, user, config, mappings) in {NotFound, Found(0)}
    requires !host.admits(Get(user, LoginField(mappings)), TextOf(Get(user, "email")))
    ensures CreateOrUpdate(st, user0, config, mappings, fullImport, host, authTypes) == (Placed(None, None), st)
  {
  }

  /**
   * Updating an existing account: the completed object with that id is both
   * listed and reported, no account is created, the profile is written to
   * that account only (every other row stays as it was), and the manager is
   * linked.
   */
  lemma HandleUpdates(st: State, id: nat, user: Profile, obj: Profile, mappings: Mappings, mgr: ManagerRef, host: Host)
    ensures var c := Completed(obj, user, mappings, mgr);
            var (p, r) := Handle(st, Some(id), user, obj, mappings, mgr, host);
            && p == Placed(Some(c["id" := Int(id)]), Some(c["id" := Int(id)]))
            && r == LinkManager(WithData(st, id, OidcPayload(c, mappings), host), id, mgr)
            && r.nextId == st.nextId && |r.rows| == |st.rows|
            && st.log + [ProfileWritten(id, OidcPayload(c, mappings))] <= r.log
            && (forall i :: 0 <= i < |st.rows| ==> r.rows[i].id == st.rows[i].id)
            && (forall i :: 0 <= i < |st.rows| && st.rows[i].id != id ==> r.rows[i] == st.rows[i])
  {
    var c := Completed(obj, user, mappings, mgr);
    var w := WithData(st, id, OidcPayload(c, mappings), host);
    assert w.log == st.log + [ProfileWritten(id, OidcPayload(c, mappings))];
    assert forall i :: 0 <= i < |st.rows| ==> w.rows[i].id == st.rows[i].id;
  }

  /**
   * In a full import, a user whose account was found is updated in place, as
   * HandleUpdates describes, with the object built from the user and the
   * manager the lookup resolved.
   */
  lemma FullImportUpdatesExisting(st: State, user0: Profile, config: Config, mappings: Mappings,
                                  host: Host, authTypes: seq<int>, user: Profile, id: nat)
    requires Transform(OidcClaims, user0, config, mappings, host) == Some(user)
    requires PassesDuplicateCheck(user, config, mappings)
    requires FindExisting(st.rows, user, config, mappings) == Found(id) && id != 0
    ensures CreateOrUpdate(st, user0, config, mappings, true, host, authTypes)
            == Handle(st, Some(id), user, UserObjectOf(user), mappings, ManagerOf(st.rows, authTypes, user), host)
  {
  }

  // ---------------------------------------------------------------------
  // resolvePendingManagerAssignments

  /** One pending user in the second pass: write the manager if the lookup now finds it. */
  function PendingStep(s: State, k: nat, email: string, authTypes: seq<int>): (r: State)
    ensures r.nextId == s.nextId && r.pending == s.pending && |r.rows| == |s.rows|
  {
    match EmailLookup(s.rows, email, authTypes)
    case Some(m) => s.(rows := WithSupervisor(s.rows, k, m), log := s.log + [SetSupervisor(k, m)])
    case None => s
  }

  /**
   * A retry changes nothing when the address is unknown; otherwise it sets
   * the user's supervisor to the found account, changes no other field, and
   * logs that one write.
   */
  lemma PendingStepEffect(s: State, k: nat, email: string, authTypes: seq<int>)
    ensures var r := PendingStep(s, k, email, authTypes);
            && SameButSupervisors(r.rows, s.rows) && s.log <= r.log && |r.log| <= |s.log| + 1
            && (EmailLookup(s.rows, email, authTypes).None? ==> r == s)
            && (EmailLookup(s.rows, email, authTypes).Some? ==>
                  var m := EmailLookup(s.rows, email, authTypes).value;
                  && r.log == s.log + [SetSupervisor(k, m)]
                  && forall i :: 0 <= i < |s.rows| && s.rows[i].id == k ==> r.rows[i].supervisor == m)
  {
  }

  /** The second pass over the pending users in `keys`, in order. */
  function ApplyPending(st: State, keys: seq<nat>, emails: map<nat, string>, authTypes: seq<int>): (r: State)
    requires forall k :: k in keys ==> k in emails
    ensures r.nextId == st.nextId && r.pending == st.pending && |r.rows| == |st.rows|
  {
    if keys == [] then st
    else
      var k := keys[|keys| - 1];
      PendingStep(ApplyPending(st, keys[..|keys| - 1], emails, authTypes), k, emails[k], authTypes)
  }

  lemma ApplyPendingStep(st: State, keys: seq<nat>, emails: map<nat, string>, authTypes: seq<int>, i: nat)
    requires forall k :: k in keys ==> k in emails
    requires i < |keys|
    ensures ApplyPending(st, keys[..i + 1], emails, authTypes)
            == PendingStep(ApplyPending(st, keys[..i], emails, authTypes), keys[i], emails[keys[i]], authTypes)
  {
    assert keys[..i + 1][..i] == keys[..i];
  }

  /** resolvePendingManagerAssignments: the second pass, after which nothing is pending. */
  function ResolvePending(st: State, authTypes: seq<int>): (r: State)
    requires st.pending.Valid()
    ensures r.pending == EmptyMap() && r.nextId == st.nextId
  {
    var s := ApplyPending(st, st.pending.keys, st.pending.vals, authTypes);
    s.(pending := EmptyMap())
  }

  /** Two tables that differ at most in supervisors. */
  ghost predicate SameButSupervisors(a: seq<UserRec>, b: seq<UserRec>) {
    |a| == |b| && forall i :: 0 <= i < |a| ==> a[i].(supervisor := 0) == b[i].(supervisor := 0)
  }

  lemma LookupIgnoresSupervisors(a: seq<UserRec>, b: seq<UserRec>, email: string, authTypes: seq<int>)
    requires SameButSupervisors(a, b)
    ensures EmailLookup(a, email, authTypes) == EmailLookup(b, email, authTypes)
  {
    forall i | 0 <= i < |a|
      ensures a[i].id == b[i].id && a[i].emails == b[i].emails && a[i].authType == b[i].authType
    {
      assert a[i].(supervisor := 0).id == b[i].(supervisor := 0).id;
      assert a[i].(supervisor := 0).emails == b[i].(supervisor := 0).emails;
      assert a[i].(supervisor := 0).authType == b[i].(supervisor := 0).authType;
    }
    if TruthyString(email) {
      FirstIdAgrees(a, b, rec => HasEmail(rec, email, authTypes));
    }
  }

  /** The second pass changes only supervisors, and appends only supervisor writes to the log. */
  lemma {:induction false} ApplyPendingShape(st: State, keys: seq<nat>, emails: map<nat, string>, authTypes: seq<int>)
    requires forall k :: k in keys ==> k in emails
    ensures var r := ApplyPending(st, keys, emails, authTypes);
            && SameButSupervisors(r.rows, st.rows) && st.log <= r.log
            && (forall n :: |st.log| <= n < |r.log| ==> r.log[n].SetSupervisor?)
  {
    if keys != [] {
      var init := keys[..|keys| - 1];
      assert forall x :: x in init ==> x in keys;
      ApplyPendingShape(st, init, emails, authTypes);
    }
  }

  /**
   * A pending user whose manager the lookup (on the table as the pass found
   * it) finds is linked to that manager; rows of users not pending stay as
   * they were.
   */
  lemma {:induction false} ApplyPendingLinks(st: State, keys: seq<nat>, emails: map<nat, string>, authTypes: seq<int>, i: nat)
    requires forall k :: k in keys ==> k in emails
    requires forall a, b :: 0 <= a < b < |keys| ==> keys[a] != keys[b]
    requires i < |st.rows|
    ensures var r := ApplyPending(st, keys, emails, authTypes);
            var id := st.rows[i].id;
            && (id in keys && EmailLookup(st.rows, emails[id], authTypes).Some?
                ==> r.rows[i].supervisor == EmailLookup(st.rows, emails[id], authTypes).value)
            && (id !in keys ==> r.rows[i] == st.rows[i])
  {
    if keys != [] {
      var init := keys[..|keys| - 1];
      var k := keys[|keys| - 1];
      var id := st.rows[i].id;
      assert forall x :: x in init ==> x in keys;
      ApplyPendingLinks(st, init, emails, authTypes, i);
      var s := ApplyPending(st, init, emails, authTypes);
      ApplyPendingShape(st, init, emails, authTypes);
      assert s.rows[i].(supervisor := 0).id == st.rows[i].(supervisor := 0).id;
      if id == k {
        assert k !in init by {
          forall j | 0 <= j < |init|
            ensures init[j] != k
          {
            assert init[j] == keys[j];
          }
        }
        LookupIgnoresSupervisors(s.rows, st.rows, emails[k], authTypes);
      } else if id in keys {
        var j :| 0 <= j < |keys| && keys[j] == id;
        assert init[j] == id;
      }
    }
  }

  /** With nothing pending the second pass writes nothing. */
  lemma NothingPendingWritesNothing(st: State, authTypes: seq<int>)
    requires st.pending.Valid() && st.pending.keys == []
    ensures ResolvePending(st, authTypes) == st.(pending := EmptyMap())
  {
  }

  /** The second pass over a well-formed pending table: what it links, and that it leaves other rows alone. */
  lemma ResolvePendingEffect(st: State, authTypes: seq<int>)
    requires st.pending.Valid()
    ensures var r := ResolvePending(st, authTypes);
            && SameButSupervisors(r.rows, st.rows) && st.log <= r.log
            && (forall n :: |st.log| <= n < |r.log| ==> r.log[n].SetSupervisor?)
            && (forall i :: 0 <= i < |st.rows| && st.rows[i].id in st.pending.vals
                   && EmailLookup(st.rows, st.pending.vals[st.rows[i].id], authTypes).Some?
                   ==> r.rows[i].supervisor == EmailLookup(st.rows, st.pending.vals[st.rows[i].id], authTypes).value)
            && (forall i :: 0 <= i < |st.rows| && st.rows[i].id !in st.pending.vals ==> r.rows[i] == st.rows[i])
  {
    var keys, emails := st.pending.keys, st.pending.vals;
    ApplyPendingShape(st, keys, emails, authTypes);
    forall i | 0 <= i < |st.rows|
      ensures var r := ApplyPending(st, keys, emails, authTypes);
              var id := st.rows[i].id;
              && (id in keys && EmailLookup(st.rows, emails[id], authTypes).Some?
                  ==> r.rows[i].supervisor == EmailLookup(st.rows, emails[id], authTypes).value)
              && (id !in keys ==> r.rows[i] == st.rows[i])
    {
      ApplyPendingLinks(st, keys, emails, authTypes, i);
    }
  }

  // ---------------------------------------------------------------------
  // deactivateUnlistedUsers

  /** The auth types the sweep covers: external accounts, and LDAP ones with `ldap_update` on. */
  function SweepTypes(config: Config): (r: seq<int>)
    ensures EXTERNAL in r && (LDAP in r <==> IsOn(config, "ldap_update"))
  {
    if IsOn(config, "ldap_update") then [LDAP, EXTERNAL] else [EXTERNAL]
  }

  /** The ids of the listed users (`array_map` of their `id`). */
  function ListedIds(listed: seq<Profile>): (r: seq<Json>)
    ensures |r| == |listed| && forall i :: 0 <= i < |listed| ==> r[i] == Get(listed[i], "id")
  {
    seq(|listed|, i requires 0 <= i < |listed| => Get(listed[i], "id"))
  }

  /** One row after the sweep: a covered account is active exactly when it is listed. */
  function Swept(rec: UserRec, ids: seq<Json>, types: seq<int>): UserRec {
    if rec.authType in types then rec.(isActive := Int(rec.id) in ids) else rec
  }

  function Sweep(rows: seq<UserRec>, ids: seq<Json>, types: seq<int>): (r: seq<UserRec>)
    ensures |r| == |rows| && forall i :: 0 <= i < |rows| ==> r[i] == Swept(rows[i], ids, types)
  {
    seq(|rows|, i requires 0 <= i < |rows| => Swept(rows[i], ids, types))
  }

  /** The update the sweep issues for one row: only when a covered account's state has to change. */
  function SweepWrite(rec: UserRec, ids: seq<Json>, types: seq<int>): seq<Write> {
    if rec.authType in types && rec.isActive != (Int(rec.id) in ids) then [SetActive(rec.id, Int(rec.id) in ids)] else []
  }

  /** The updates the sweep issues, in table order. */
  function SweepWrites(rows: seq<UserRec>, ids: seq<Json>, types: seq<int>): seq<Write> {
    if rows == [] then []
    else SweepWrites(rows[..|rows| - 1], ids, types) + SweepWrite(rows[|rows| - 1], ids, types)
  }

  function Deactivate(st: State, listed: seq<Profile>, config: Config): (r: State)
    ensures r.nextId == st.nextId && r.pending == st.pending && |r.rows| == |st.rows|
  {
    var ids := ListedIds(listed);
    var types := SweepTypes(config);
    st.(rows := Sweep(st.rows, ids, types), log := st.log + SweepWrites(st.rows, ids, types))
  }

  /** One row of the sweep loop: the row at `i` takes its swept state and the write, if any, is logged. */
  lemma SweepStep(rows: seq<UserRec>, ids: seq<Json>, types: seq<int>, i: nat)
    requires i < |rows|
    ensures Sweep(rows[..i + 1], ids, types) + rows[i + 1..]
            == (Sweep(rows[..i], ids, types) + rows[i..])[i := Swept(rows[i], ids, types)]
    ensures SweepWrites(rows[..i + 1], ids, types) == SweepWrites(rows[..i], ids, types) + SweepWrite(rows[i], ids, types)
  {
    assert rows[..i + 1][..i] == rows[..i] && rows[..i + 1][i] == rows[i];
    var a := Sweep(rows[..i + 1], ids, types) + rows[i + 1..];
    var b := (Sweep(rows[..i], ids, types) + rows[i..])[i := Swept(rows[i], ids, types)];
    assert |a| == |b|;
    forall j | 0 <= j < |a|
      ensures a[j] == b[j]
    {
      if j < i {
        assert a[j] == Swept(rows[j], ids, types) == b[j];
      } else if j > i {
        assert a[j] == rows[j] == b[j];
      }
    }
  }

  /**
   * After the sweep a covered account is active exactly when the run listed
   * it; accounts of other auth types are untouched.
   */
  lemma SweepActiveIffListed(st: State, listed: seq<Profile>, config: Config, i: nat)
    requires i < |st.rows|
    ensures var r := Deactivate(st, listed, config).rows[i];
            && (st.rows[i].authType in SweepTypes(config) ==>
                  (r.isActive <==> exists j :: 0 <= j < |listed| && Get(listed[j], "id") == Int(st.rows[i].id)))
            && r.(isActive := st.rows[i].isActive) == st.rows[i]
            && (st.rows[i].authType !in SweepTypes(config) ==> r == st.rows[i])
  {
    var ids := ListedIds(listed);
    if Int(st.rows[i].id) in ids {
      var j :| 0 <= j < |ids| && ids[j] == Int(st.rows[i].id);
      assert Get(listed[j], "id") == Int(st.rows[i].id);
    }
  }

  /** A row is written exactly when the sweep changes it, and the write carries its new state. */
  lemma SweepWriteOfRow(rec: UserRec, ids: seq<Json>, types: seq<int>)
    ensures SweepWrite(rec, ids, types) != [] <==> Swept(rec, ids, types) != rec
    ensures SweepWrite(rec, ids, types) != [] ==>
              SweepWrite(rec, ids, types) == [SetActive(rec.id, Swept(rec, ids, types).isActive)]
  {
  }

  /** Every write of the sweep belongs to a row it changes, and carries that row's new state. */
  lemma {:induction false} SweepWriteFromChange(rows: seq<UserRec>, ids: seq<Json>, types: seq<int>, w: Write)
    requires w in SweepWrites(rows, ids, types)
    ensures w.SetActive?
    ensures exists i :: 0 <= i < |rows| && rows[i].id == w.user
                        && Sweep(rows, ids, types)[i] != rows[i] && w.active == Sweep(rows, ids, types)[i].isActive
  {
    var n := |rows| - 1;
    var init := rows[..n];
    SweepWriteOfRow(rows[n], ids, types);
    if w in SweepWrites(init, ids, types) {
      SweepWriteFromChange(init, ids, types, w);
      var i :| 0 <= i < |init| && init[i].id == w.user
               && Sweep(init, ids, types)[i] != init[i] && w.active == Sweep(init, ids, types)[i].isActive;
      assert rows[i] == init[i];
      assert Sweep(rows, ids, types)[i] == Sweep(init, ids, types)[i];
    } else {
      assert w in SweepWrite(rows[n], ids, types);
      assert Sweep(rows, ids, types)[n] == Swept(rows[n], ids, types);
    }
  }

  /** Every row the sweep changes is written with its new state. */
  lemma {:induction false} SweepChangeIsWritten(rows: seq<UserRec>, ids: seq<Json>, types: seq<int>, i: nat)
    requires i < |rows| && Sweep(rows, ids, types)[i] != rows[i]
    ensures SetActive(rows[i].id, Sweep(rows, ids, types)[i].isActive) in SweepWrites(rows, ids, types)
  {
    var n := |rows| - 1;
    var init := rows[..n];
    if i < n {
      assert rows[i] == init[i];
      assert Sweep(rows, ids, types)[i] == Sweep(init, ids, types)[i];
      SweepChangeIsWritten(init, ids, types, i);
    } else {
      SweepWriteOfRow(rows[n], ids, types);
    }
  }

  /** The sweep writes exactly the rows it changes, each with its new state. */
  lemma SweepWritesExactlyChanges(rows: seq<UserRec>, ids: seq<Json>, types: seq<int>)
    ensures forall w :: w in SweepWrites(rows, ids, types) ==>
              w.SetActive? && exists i :: 0 <= i < |rows| && rows[i].id == w.user
                                          && Sweep(rows, ids, types)[i] != rows[i] && w.active == Sweep(rows, ids, types)[i].isActive
    ensures forall i :: 0 <= i < |rows| && Sweep(rows, ids, types)[i] != rows[i] ==>
              SetActive(rows[i].id, Sweep(rows, ids, types)[i].isActive) in SweepWrites(rows, ids, types)
  {
    forall w | w in SweepWrites(rows, ids, types)
      ensures w.SetActive? && exists i :: 0 <= i < |rows| && rows[i].id == w.user
                                          && Sweep(rows, ids, types)[i] != rows[i] && w.active == Sweep(rows, ids, types)[i].isActive
    {
      SweepWriteFromChange(rows, ids, types, w);
    }
    forall i | 0 <= i < |rows| && Sweep(rows, ids, types)[i] != rows[i]
      ensures SetActive(rows[i].id, Sweep(rows, ids, types)[i].isActive) in SweepWrites(rows, ids, types)
    {
      SweepChangeIsWritten(rows, ids, types, i);
    }
  }

  /** A second sweep with the same list changes nothing and writes nothing. */
  lemma {:induction false} SweepIdempotent(rows: seq<UserRec>, ids: seq<Json>, types: seq<int>)
    ensures Sweep(Sweep(rows, ids, types), ids, types) == Sweep(rows, ids, types)
    ensures SweepWrites(Sweep(rows, ids, types), ids, types) == []
  {
    if rows != [] {
      var init := rows[..|rows| - 1];
      SweepIdempotent(init, ids, types);
      assert Sweep(rows, ids, types)[..|rows| - 1] == Sweep(init, ids, types);
    }
  }

  // ---------------------------------------------------------------------
  // collectUsersFromGroups

  /** One member of one group: the user's key in the user list, its record, and the group's name. */
  datatype Membership = Membership(key: string, user: Json, groupName: string)

  /** The key of the user list: the Okta id, as a PHP array key. */
  function UserKey(user: Json): string {
    TextOf(Field(user, "id"))
  }

  /** The entry of a user first met in a group: its profile, its id, that group, and its manager record if set. */
  function Content(user: Json, name: string): Profile {
    var c := Entries(Field(user, "profile"))["id" := Field(user, "id")]["group" := List([Str(name)])];
    if Isset(Entries(user), "manager") then c["manager" := Field(user, "manager")] else c
  }

  /** The entry carries the Okta id, the one group, the manager record when set, and every other profile field. */
  lemma ContentFields(user: Json, name: string)
    ensures "id" in Content(user, name) && Content(user, name)["id"] == Field(user, "id")
    ensures "group" in Content(user, name) && Content(user, name)["group"] == List([Str(name)])
    ensures Isset(Entries(user), "manager") ==>
              "manager" in Content(user, name) && Content(user, name)["manager"] == Field(user, "manager")
    ensures forall k :: k in Entries(Field(user, "profile")) && k !in {"id", "group", "manager"}
              ==> k in Content(user, name) && Content(user, name)[k] == Entries(Field(user, "profile"))[k]
  {
  }

  /** One step of the inner loop: a new user gets an entry, a known one gains the group. */
  function AddMember(list: OMap<string, Profile>, m: Membership): OMap<string, Profile> {
    var k := m.key;
    if k in list.vals then
      list.Put(k, list.vals[k]["group" := List(Items(Get(list.vals[k], "group")) + [Str(m.groupName)])])
    else list.Put(k, Content(m.user, m.groupName))
  }

  /** The user list built from the memberships in order. */
  function CollectFrom(ms: seq<Membership>): OMap<string, Profile> {
    if ms == [] then EmptyMap() else AddMember(CollectFrom(ms[..|ms| - 1]), ms[|ms| - 1])
  }

  /** The collected list is a well-formed PHP array: its keys are distinct and are exactly its entries. */
  lemma {:induction false} CollectValid(ms: seq<Membership>)
    ensures CollectFrom(ms).Valid()
  {
    if ms != [] {
      CollectValid(ms[..|ms| - 1]);
      var prev := CollectFrom(ms[..|ms| - 1]);
      var m := ms[|ms| - 1];
      if m.key in prev.vals {
        assert AddMember(prev, m) == prev.Put(m.key, prev.vals[m.key]["group" := List(Items(Get(prev.vals[m.key], "group")) + [Str(m.groupName)])]);
      } else {
        assert AddMember(prev, m) == prev.Put(m.key, Content(m.user, m.groupName));
      }
    }
  }

  /** The list after one more membership is the step applied to the list before it. */
  lemma CollectFromLast(ms: seq<Membership>)
    requires ms != []
    ensures CollectFrom(ms) == AddMember(CollectFrom(ms[..|ms| - 1]), ms[|ms| - 1])
  {
  }

  /** The members of one group, labelled with its name. */
  function Batch(users: seq<Json>, name: string): (r: seq<Membership>)
    ensures |r| == |users| && forall i :: 0 <= i < |users| ==> r[i] == Membership(UserKey(users[i]), users[i], name)
  {
    seq(|users|, i requires 0 <= i < |users| => Membership(UserKey(users[i]), users[i], name))
  }

  /** The memberships of the groups in `keys`, group by group, members in the order Okta lists them. */
  function Memberships(keys: seq<string>, labels: map<string, string>, members: string -> seq<Json>): seq<Membership>
    requires forall k :: k in keys ==> k in labels
  {
    if keys == [] then []
    else
      var k := keys[|keys| - 1];
      Memberships(keys[..|keys| - 1], labels, members) + Batch(members(k), labels[k])
  }

  /** The groups (in order) whose member lists named user `k`. */
  function LabelsFor(ms: seq<Membership>, k: string): seq<Json> {
    if ms == [] then []
    else LabelsFor(ms[..|ms| - 1], k) + if ms[|ms| - 1].key == k then [Str(ms[|ms| - 1].groupName)] else []
  }

  /** One step of the inner collection loop. */
  lemma CollectStep(done: seq<Membership>, batch: seq<Membership>, u: nat)
    requires u < |batch|
    ensures CollectFrom(done + batch[..u + 1]) == AddMember(CollectFrom(done + batch[..u]), batch[u])
  {
    var ms := done + batch[..u + 1];
    assert ms[..|ms| - 1] == done + batch[..u] && ms[|ms| - 1] == batch[u];
  }

  /** The memberships of one more group follow those of the groups before it. */
  lemma MembershipsStep(keys: seq<string>, labels: map<string, string>, members: string -> seq<Json>, g: nat)
    requires forall k :: k in keys ==> k in labels
    requires g < |keys|
    ensures Memberships(keys[..g + 1], labels, members)
            == Memberships(keys[..g], labels, members) + Batch(members(keys[g]), labels[keys[g]])
  {
    assert keys[..g + 1][..g] == keys[..g] && keys[..g + 1][g] == keys[g];
    assert forall k :: k in keys[..g] ==> k in keys;
  }

  /** The user list holds an entry exactly for the Okta ids some membership names. */
  lemma {:induction false} CollectKeys(ms: seq<Membership>, k: string)
    ensures k in CollectFrom(ms).vals <==> exists i :: 0 <= i < |ms| && ms[i].key == k
  {
    if ms != [] {
      var n := |ms| - 1;
      var init := ms[..n];
      CollectKeys(init, k);
      var prev := CollectFrom(init);
      CollectFromLast(ms);
      AddMemberKeys(prev, ms[n], k);
      if k in prev.vals {
        var i :| 0 <= i < n && init[i].key == k;
        assert ms[i] == init[i];
      } else if ms[n].key != k {
        assert forall i :: 0 <= i < n ==> init[i].key != k;
        assert forall i :: 0 <= i < n ==> ms[i] == init[i];
      }
    }
  }

  /** A user without an entry collected no group labels. */
  lemma {:induction false} AbsentHasNoLabels(ms: seq<Membership>, k: string)
    requires k !in CollectFrom(ms).vals
    ensures LabelsFor(ms, k) == []
  {
    if ms != [] {
      var n := |ms| - 1;
      var prev := CollectFrom(ms[..n]);
      CollectFromLast(ms);
      AddMemberKeys(prev, ms[n], k);
      AbsentHasNoLabels(ms[..n], k);
    }
  }

  /** A step adds the member's key and no other. */
  lemma AddMemberKeys(list: OMap<string, Profile>, m: Membership, k: string)
    ensures k in AddMember(list, m).vals <==> k in list.vals || k == m.key
  {
  }

  /** The `group` entry of a listed user names every group that listed it, in order. */
  lemma {:induction false} CollectGroups(ms: seq<Membership>, k: string)
    requires k in CollectFrom(ms).vals
    ensures Items(Get(CollectFrom(ms).vals[k], "group")) == LabelsFor(ms, k)
  {
    var n := |ms| - 1;
    var init, last := ms[..n], ms[n];
    var prev := CollectFrom(init);
    CollectFromLast(ms);
    assert LabelsFor(ms, k) == LabelsFor(init, k) + if last.key == k then [Str(last.groupName)] else [];
    if k in prev.vals {
      CollectGroups(init, k);
      if last.key == k {
        var grown := Items(Get(prev.vals[k], "group")) + [Str(last.groupName)];
        assert CollectFrom(ms).vals[k] == prev.vals[k]["group" := List(grown)];
      } else {
        assert CollectFrom(ms).vals[k] == prev.vals[k];
      }
    } else {
      AbsentHasNoLabels(init, k);
      AddMemberKeys(prev, last, k);
      ContentFields(last.user, last.groupName);
      assert CollectFrom(ms).vals[k] == Content(last.user, last.groupName);
    }
  }

  lemma MapUpdateTwice(m: Profile, k: string, a: Json, b: Json)
    ensures m[k := a][k := b] == m[k := b]
  {
  }

  /** A later membership of a known user appends its group to the `group` entry and changes nothing else. */
  lemma AddMemberKeepsEntry(prev: OMap<string, Profile>, m: Membership, k: string, c: Profile, labels: seq<Json>)
    requires k in prev.vals && prev.vals[k] == c["group" := List(labels)]
    ensures k in AddMember(prev, m).vals
    ensures AddMember(prev, m).vals[k]
            == c["group" := List(labels + if m.key == k then [Str(m.groupName)] else [])]
  {
    if m.key == k {
      MapUpdateTwice(c, "group", List(labels), List(labels + [Str(m.groupName)]));
    } else {
      assert labels + [] == labels;
    }
  }

  /**
   * The entry of a user is the one built at its first membership, with
   * `group` listing every group that named the user, in order.
   */
  lemma {:induction false} CollectEntry(ms: seq<Membership>, k: string, i: nat)
    requires i < |ms| && ms[i].key == k
    requires forall j :: 0 <= j < i ==> ms[j].key != k
    ensures k in CollectFrom(ms).vals
    ensures CollectFrom(ms).vals[k] == Content(ms[i].user, ms[i].groupName)["group" := List(LabelsFor(ms, k))]
  {
    var n := |ms| - 1;
    var init := ms[..n];
    var prev := CollectFrom(init);
    var last := ms[n];
    if i < n {
      assert forall j :: 0 <= j < i ==> init[j] == ms[j];
      CollectEntry(init, k, i);
      CollectFromLast(ms);
      assert LabelsFor(ms, k) == LabelsFor(init, k) + if last.key == k then [Str(last.groupName)] else [];
      AddMemberKeepsEntry(prev, last, k, Content(ms[i].user, ms[i].groupName), LabelsFor(init, k));
    } else {
      CollectKeys(init, k);
      assert k !in prev.vals by {
        forall j | 0 <= j < n
          ensures init[j].key != k
        {
          assert init[j] == ms[j];
        }
      }
      AbsentHasNoLabels(init, k);
      var c := Content(last.user, last.groupName);
      ContentFields(last.user, last.groupName);
      assert LabelsFor(ms, k) == [Str(last.groupName)];
      assert c["group" := List(LabelsFor(ms, k))] == c;
      CollectFromLast(ms);
      assert AddMember(prev, last).vals == prev.vals[k := c];
    }
  }

  // ---------------------------------------------------------------------
  // importUsers and importSingleUser

  /** Where the loop over the user list stands: state, listed and reported users, and whether the run ended. */
  datatype Progress = Progress(st: State, listed: seq<Profile>, imported: seq<Profile>, failed: bool)

  function OptList(p: Option<Profile>): seq<Profile> {
    if p.Some? && p.value != map[] then [p.value] else []
  }

  /** One iteration of the loop of importUsers; once an error ended the loop nothing changes. */
  function PlaceNext(p: Progress, user: Profile, config: Config, mappings: Mappings, fullImport: bool,
                     host: Host, authTypes: seq<int>): (r: Progress)
    ensures p.st.pending.Valid() ==> r.st.pending.Valid()
    ensures p.failed ==> r == p
  {
    if p.failed then p
    else
      var (result, s) := CreateOrUpdate(p.st, user, config, mappings, fullImport, host, authTypes);
      match result
      case Failed => p.(st := s, failed := true)
      case Rejected => p.(st := s)
      case Placed(l, i) => Progress(s, p.listed + OptList(l), p.imported + OptList(i), false)
  }

  /** The loop of importUsers over the collected users; an error ends it. */
  function PlaceAll(st: State, users: seq<Profile>, config: Config, mappings: Mappings, fullImport: bool,
                    host: Host, authTypes: seq<int>): (r: Progress)
    ensures st.pending.Valid() ==> r.st.pending.Valid()
  {
    if users == [] then Progress(st, [], [], false)
    else
      PlaceNext(PlaceAll(st, users[..|users| - 1], config, mappings, fullImport, host, authTypes),
                users[|users| - 1], config, mappings, fullImport, host, authTypes)
  }

  lemma PlaceAllStep(st: State, users: seq<Profile>, config: Config, mappings: Mappings, fullImport: bool,
                     host: Host, authTypes: seq<int>, i: nat)
    requires i < |users|
    ensures PlaceAll(st, users[..i + 1], config, mappings, fullImport, host, authTypes)
            == PlaceNext(PlaceAll(st, users[..i], config, mappings, fullImport, host, authTypes),
                         users[i], config, mappings, fullImport, host, authTypes)
  {
    assert users[..i + 1][..i] == users[..i];
  }

  /** Once the loop has ended with an error, the later users change nothing. */
  lemma {:induction false} FailureIsFinal(st: State, users: seq<Profile>, config: Config, mappings: Mappings,
                                          fullImport: bool, host: Host, authTypes: seq<int>, j: nat)
    requires j <= |users| && PlaceAll(st, users[..j], config, mappings, fullImport, host, authTypes).failed
    ensures PlaceAll(st, users, config, mappings, fullImport, host, authTypes)
            == PlaceAll(st, users[..j], config, mappings, fullImport, host, authTypes)
  {
    if j < |users| {
      assert users[..|users| - 1][..j] == users[..j];
      FailureIsFinal(st, users[..|users| - 1], config, mappings, fullImport, host, authTypes, j);
    } else {
      assert users[..j] == users;
    }
  }

  /** Every reported user is also listed, so the sweep never deactivates a reported user. */
  lemma {:induction false} ImportedAreListed(st: State, users: seq<Profile>, config: Config, mappings: Mappings,
                                             fullImport: bool, host: Host, authTypes: seq<int>)
    ensures forall x :: x in PlaceAll(st, users, config, mappings, fullImport, host, authTypes).imported
                        ==> x in PlaceAll(st, users, config, mappings, fullImport, host, authTypes).listed
  {
    if users != [] {
      var p := PlaceAll(st, users[..|users| - 1], config, mappings, fullImport, host, authTypes);
      ImportedAreListed(st, users[..|users| - 1], config, mappings, fullImport, host, authTypes);
      PlaceNextImportedListed(p, users[|users| - 1], config, mappings, fullImport, host, authTypes);
    }
  }

  /** One iteration keeps every reported user among the listed ones. */
  lemma PlaceNextImportedListed(p: Progress, user: Profile, config: Config, mappings: Mappings,
                                fullImport: bool, host: Host, authTypes: seq<int>)
    requires forall x :: x in p.imported ==> x in p.listed
    ensures forall x :: x in PlaceNext(p, user, config, mappings, fullImport, host, authTypes).imported
                        ==> x in PlaceNext(p, user, config, mappings, fullImport, host, authTypes).listed
  {
    if !p.failed {
      var result := CreateOrUpdate(p.st, user, config, mappings, fullImport, host, authTypes).0;
      PlacedUsersCarryTheirId(p.st, user, config, mappings, fullImport, host, authTypes);
      if result.Placed? {
        assert result.imported.Some? ==> result.listed == result.imported;
        assert forall x :: x in OptList(result.imported) ==> x in OptList(result.listed);
      }
    }
  }

  /** The users of the collected list, in its order. */
  function ListValues(list: OMap<string, Profile>): (r: seq<Profile>)
    requires list.Valid()
    ensures |r| == |list.keys| && forall i :: 0 <= i < |r| ==> r[i] == list.vals[list.keys[i]]
  {
    seq(|list.keys|, i requires 0 <= i < |list.keys| && list.Valid() => list.vals[list.keys[i]])
  }

  /** The user importSingleUser hands on: its profile, the requested id, and all authorized groups. */
  function SingleUser(body: Json, userId: string, groups: OMap<string, string>): Profile {
    Entries(Field(body, "profile"))["id" := Str(userId)]["group" := Dict(map k | k in groups.vals :: Str(groups.vals[k]))]
  }

  /** importSingleUser: the reported user, if any; None when the run ended with an error. */
  function ImportSingle(st: State, response: Option<Response>, userId: string, groups: OMap<string, string>,
                        config: Config, mappings: Mappings, fullImport: bool, host: Host,
                        authTypes: seq<int>): (r: (Option<seq<Profile>>, State))
    ensures st.pending.Valid() ==> r.1.pending.Valid()
  {
    if response.None? || response.value.body == Null then (Some([]), st)
    else
      var (result, s) := CreateOrUpdate(st, SingleUser(response.value.body, userId, groups), config, mappings,
                                        fullImport, host, authTypes);
      match result
      case Failed => (None, s)
      case Rejected => (Some([]), s)
      case Placed(_, i) => (Some(OptList(i)), s)
  }

  /**
   * importSingleUser reports the user exactly when the placement reported it,
   * with its GLPI id; a failed request or an empty body reports nobody and
   * writes nothing, a rejected or only listed user reports nobody, and an
   * error ends the run.
   */
  lemma ImportSingleResult(st: State, response: Option<Response>, userId: string, groups: OMap<string, string>,
                           config: Config, mappings: Mappings, fullImport: bool, host: Host, authTypes: seq<int>)
    ensures var (r, s) := ImportSingle(st, response, userId, groups, config, mappings, fullImport, host, authTypes);
            && (response.None? || response.value.body == Null ==> r == Some([]) && s == st)
            && (response.Some? && response.value.body != Null ==>
                  var (p, s') := CreateOrUpdate(st, SingleUser(response.value.body, userId, groups), config, mappings,
                                                fullImport, host, authTypes);
                  && s == s'
                  && (r.None? <==> p.Failed?)
                  && (p.Rejected? ==> r == Some([]))
                  && (p.Placed? && p.imported.None? ==> r == Some([]))
                  && (p.Placed? && p.imported.Some? ==>
                        r == Some([p.imported.value]) && "id" in p.imported.value && p.imported.value["id"].Int?))
  {
    if response.Some? && response.value.body != Null {
      PlacedUsersCarryTheirId(st, SingleUser(response.value.body, userId, groups), config, mappings,
                              fullImport, host, authTypes);
    }
  }

  /** Whether importUsers takes the group path (`!$userId`). */
  predicate GroupPath(userId: Option<string>) {
    userId.None? || !TruthyString(userId.value)
  }

  /** The group path of importUsers: place each collected user, resolve pending managers, sweep when configured. */
  function GroupRun(st: State, list: OMap<string, Profile>, config: Config, mappings: Mappings, fullImport: bool,
                    host: Host, authTypes: seq<int>): (r: (Option<seq<Profile>>, State))
    requires list.Valid() && st.pending.Valid()
    ensures r.0.Some? ==> r.1.pending == EmptyMap()
  {
    var p := PlaceAll(st, ListValues(list), config, mappings, fullImport, host, authTypes);
    if p.failed then (None, p.st)
    else
      var resolved := ResolvePending(p.st, authTypes);
      (Some(p.imported), if IsOn(config, "deactivate") then Deactivate(resolved, p.listed, config) else resolved)
  }

  /** The single-user path of importUsers: import the one user, then resolve pending managers. */
  function SingleRun(st: State, single: Option<Response>, userId: string, groups: OMap<string, string>,
                     config: Config, mappings: Mappings, fullImport: bool, host: Host,
                     authTypes: seq<int>): (r: (Option<seq<Profile>>, State))
    requires st.pending.Valid()
    ensures r.0.Some? ==> r.1.pending == EmptyMap()
  {
    var (r, s) := ImportSingle(st, single, userId, groups, config, mappings, fullImport, host, authTypes);
    if r.None? then (None, s) else (Some(r.value), ResolvePending(s, authTypes))
  }

  /**
   * importUsers: with no user id, collect the members of the authorized
   * groups, place each, resolve pending managers and (when configured) sweep;
   * otherwise import the one user and resolve pending managers. The run
   * starts with nothing pending. The result is the reported users, or None
   * when an error ended the run.
   */
  function ImportRun(st: State, list: OMap<string, Profile>, single: Option<Response>, userId: Option<string>,
                     groups: OMap<string, string>, config: Config, mappings: Mappings, fullImport: bool,
                     host: Host, authTypes: seq<int>): (r: (Option<seq<Profile>>, State))
    requires list.Valid()
    ensures r.0.Some? ==> r.1.pending == EmptyMap()
  {
    var st0 := st.(pending := EmptyMap());
    if GroupPath(userId) then GroupRun(st0, list, config, mappings, fullImport, host, authTypes)
    else SingleRun(st0, single, userId.value, groups, config, mappings, fullImport, host, authTypes)
  }

  /** The loop keeps the table invariant, and pending only ever holds well-formed entries. */
  lemma {:induction false} PlaceAllKeepsState(st: State, users: seq<Profile>, config: Config, mappings: Mappings,
                                              fullImport: bool, host: Host, authTypes: seq<int>)
    requires StateOk(st)
    ensures StateOk(PlaceAll(st, users, config, mappings, fullImport, host, authTypes).st)
  {
    if users != [] {
      PlaceAllKeepsState(st, users[..|users| - 1], config, mappings, fullImport, host, authTypes);
      var p := PlaceAll(st, users[..|users| - 1], config, mappings, fullImport, host, authTypes);
      PlaceNextKeepsState(p, users[|users| - 1], config, mappings, fullImport, host, authTypes);
    }
  }

  lemma PlaceNextKeepsState(p: Progress, user: Profile, config: Config, mappings: Mappings, fullImport: bool,
                            host: Host, authTypes: seq<int>)
    requires StateOk(p.st)
    ensures StateOk(PlaceNext(p, user, config, mappings, fullImport, host, authTypes).st)
  {
    if !p.failed {
      CreateOrUpdateKeepsState(p.st, user, config, mappings, fullImport, host, authTypes);
      var s := CreateOrUpdate(p.st, user, config, mappings, fullImport, host, authTypes).1;
      assert PlaceNext(p, user, config, mappings, fullImport, host, authTypes).st == s;
    }
  }

  lemma LinkManagerKeepsState(st: State, id: nat, mgr: ManagerRef)
    requires StateOk(st)
    ensures StateOk(LinkManager(st, id, mgr))
  {
  }

  lemma PlaceAcceptedKeepsState(st: State, user: Profile, config: Config, mappings: Mappings, fullImport: bool,
                                host: Host, authTypes: seq<int>)
    requires StateOk(st)
    ensures StateOk(PlaceAccepted(st, user, config, mappings, fullImport, host, authTypes).1)
  {
    var mgr := ManagerOf(st.rows, authTypes, user);
    var obj := UserObjectOf(user);
    var e := FindExisting(st.rows, user, config, mappings);
    if e.NotFound? {
      HandleKeepsState(st, None, user, obj, mappings, mgr, host);
    } else if e.Found? {
      var id := e.id;
      if id == 0 {
        HandleKeepsState(st, None, user, obj, mappings, mgr, host);
      } else if fullImport {
        var i :| 0 <= i < |st.rows| && st.rows[i].id == id;
        HandleKeepsState(st, Some(id), user, obj, mappings, mgr, host);
      } else {
        LinkManagerKeepsState(st, id, mgr);
      }
    }
  }

  lemma CreateOrUpdateKeepsState(st: State, user0: Profile, config: Config, mappings: Mappings, fullImport: bool,
                                 host: Host, authTypes: seq<int>)
    requires StateOk(st)
    ensures StateOk(CreateOrUpdate(st, user0, config, mappings, fullImport, host, authTypes).1)
  {
    var t := Transform(OidcClaims, user0, config, mappings, host);
    if t.Some? && PassesDuplicateCheck(t.value, config, mappings) {
      PlaceAcceptedKeepsState(st, t.value, config, mappings, fullImport, host, authTypes);
    }
  }


  /**
   * A group-path run that ends normally leaves nothing pending, and with
   * `deactivate` on every covered account is active exactly when the run
   * listed it.
   */
  lemma GroupRunOutcome(st: State, list: OMap<string, Profile>, single: Option<Response>, userId: Option<string>,
                        groups: OMap<string, string>, config: Config, mappings: Mappings, fullImport: bool,
                        host: Host, authTypes: seq<int>, i: nat)
    requires list.Valid() && GroupPath(userId)
    requires ImportRun(st, list, single, userId, groups, config, mappings, fullImport, host, authTypes).0.Some?
    ensures var (_, r) := ImportRun(st, list, single, userId, groups, config, mappings, fullImport, host, authTypes);
            var p := PlaceAll(st.(pending := EmptyMap()), ListValues(list), config, mappings, fullImport, host, authTypes);
            && r.pending == EmptyMap()
            && (IsOn(config, "deactivate") && i < |r.rows| && r.rows[i].authType in SweepTypes(config) ==>
                  (r.rows[i].isActive <==> exists j :: 0 <= j < |p.listed| && Get(p.listed[j], "id") == Int(r.rows[i].id)))
  {
    var st0 := st.(pending := EmptyMap());
    var p := PlaceAll(st0, ListValues(list), config, mappings, fullImport, host, authTypes);
    assert st0.pending.Valid();
    assert !p.failed;
    var resolved := ResolvePending(p.st, authTypes);
    var r := ImportRun(st, list, single, userId, groups, config, mappings, fullImport, host, authTypes).1;
    assert r == GroupRun(st0, list, config, mappings, fullImport, host, authTypes).1;
    if IsOn(config, "deactivate") {
      assert r == Deactivate(resolved, p.listed, config);
      if i < |r.rows| {
        SweepActiveIffListed(resolved, p.listed, config, i);
        assert r.rows[i].authType == resolved.rows[i].authType && r.rows[i].id == resolved.rows[i].id;
      }
    } else {
      assert r == resolved;
    }
  }
}
