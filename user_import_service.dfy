/**
 * UserImportService: the object that runs an import. It owns the pending
 * manager assignments and works on the user table through the repository;
 * every operation is proved to have the effect the functions of ImportFlow
 * and ImportRules describe.
 */
module Import {
  import opened Php
  import opened Api
  import opened Groups
  import opened Repository
  import opened ImportRules
  import opened ImportFlow

  /** The Okta endpoint of one user. */
  function UserUri(userId: string): string {
    "api/v1/users/" + userId
  }

  /** The body of collectUsersFromGroups' inner loop: a new user gets an entry, a known one gains the group. */
  method CollectMember(userList: OMap<string, Profile>, user: Json, name: string) returns (r: OMap<string, Profile>)
    ensures r == AddMember(userList, Membership(UserKey(user), user, name))
  {
    var uid := UserKey(user);
    if uid !in userList.vals {
      var content := Entries(Field(user, "profile"));
      content := content["id" := Field(user, "id")];
      content := content["group" := List([Str(name)])];
      if Isset(Entries(user), "manager") {
        content := content["manager" := Field(user, "manager")];
      }
      assert content == Content(user, name);
      r := userList.Put(uid, content);
    } else {
      var entry := userList.vals[uid];
      r := userList.Put(uid, entry["group" := List(Items(Get(entry, "group")) + [Str(name)])]);
    }
  }

  /** The inner loop of collectUsersFromGroups: the members of one group, in the order Okta lists them. */
  method CollectGroup(userList: OMap<string, Profile>, usersInGroup: seq<Json>, name: string, ghost done: seq<Membership>)
    returns (r: OMap<string, Profile>)
    requires userList == CollectFrom(done)
    ensures r == CollectFrom(done + Batch(usersInGroup, name))
  {
    ghost var batch := Batch(usersInGroup, name);
    r := userList;
    var u := 0;
    assert done + batch[..0] == done;
    while u < |usersInGroup|
      invariant 0 <= u <= |usersInGroup|
      invariant r == CollectFrom(done + batch[..u])
    {
      r := CollectNext(r, usersInGroup, u, name, done);
      u := u + 1;
    }
    assert batch[..u] == batch;
  }

  /** One pass of the inner loop of collectUsersFromGroups. */
  method CollectNext(userList: OMap<string, Profile>, usersInGroup: seq<Json>, u: nat, name: string,
                     ghost done: seq<Membership>)
    returns (r: OMap<string, Profile>)
    requires u < |usersInGroup|
    requires userList == CollectFrom(done + Batch(usersInGroup, name)[..u])
    ensures r == CollectFrom(done + Batch(usersInGroup, name)[..u + 1])
  {
    CollectStep(done, Batch(usersInGroup, name), u);
    r := CollectMember(userList, usersInGroup[u], name);
  }

  class UserImportService {
    /** The Okta client's `request()`, as a function of the URI. */
    const fetch: string -> Option<Response>
    const groupService: GroupService
    const repo: UserRepository
    const host: Host
    /** The rows of glpi_oidc_mapping. */
    const mappingRows: seq<Mappings>
    /** GLPI user id => e-mail of a manager not found yet. */
    var pending: OMap<nat, string>

    ghost predicate Valid()
      reads this, repo.db
    {
      repo.db.Valid() && pending.Valid()
    }

    /** The state the functions of ImportFlow describe. */
    ghost function Snapshot(): State
      reads this, repo.db
    {
      State(repo.db.rows, repo.db.nextId, repo.db.log, pending)
    }

    constructor (fetch: string -> Option<Response>, groupService: GroupService, repo: UserRepository,
                 host: Host, mappingRows: seq<Mappings>)
      ensures this.fetch == fetch && this.groupService == groupService && this.repo == repo
      ensures this.host == host && this.mappingRows == mappingRows
      ensures pending == EmptyMap()
    {
      this.fetch := fetch;
      this.groupService := groupService;
      this.repo := repo;
      this.host := host;
      this.mappingRows := mappingRows;
      pending := EmptyMap();
    }

    /** getOidcMappings: the first row of the mapping table, or no mappings at all. */
    function GetOidcMappings(): (r: Mappings)
      ensures mappingRows == [] ==> r == map[]
      ensures mappingRows != [] ==> r == mappingRows[0]
    {
      if mappingRows == [] then map[] else mappingRows[0]
    }

    /** The member lists the group service returns, by group id. */
    function MemberLists(): string -> seq<Json> {
      k => Pages(groupService.fetch, MembersUri(k), groupService.maxPages)
    }

    /** buildUserObject: copy every set Okta field under its OIDC claim. */
    method BuildUserObject(user: Profile) returns (obj: Profile)
      ensures obj == UserObjectOf(user)
    {
      obj := map[];
      var i := 0;
      while i < |ApiClaims|
        invariant 0 <= i <= |ApiClaims|
        invariant forall c :: c in obj <==> c in ApiClaims[..i] && c in ApiMappings && Isset(user, ApiMappings[c])
        invariant forall c :: c in obj ==> c in ApiMappings && obj[c] == Get(user, ApiMappings[c])
      {
        var key := ApiClaims[i];
        assert ApiClaims[..i + 1] == ApiClaims[..i] + [key];
        var value := ApiMappings[key];
        if Isset(user, value) {
          obj := obj[key := user[value]];
        }
        i := i + 1;
      }
      assert ApiClaims[..i] == ApiClaims;
      ApiClaimsAreTheTable();
      var spec := UserObjectOf(user);
      UserObjectFields(user);
      assert obj.Keys == spec.Keys;
    }

    /** The normalise/filter loop of createOrUpdateUser; a rejection returns at once. */
    method NormalizeAndFilter(user: Profile, config: Config, mappings: Mappings) returns (r: Option<Profile>)
      ensures r == Transform(OidcClaims, user, config, mappings, host)
    {
      var u := user;
      var i := 0;
      while i < |OidcClaims|
        invariant 0 <= i <= |OidcClaims|
        invariant Transform(OidcClaims, user, config, mappings, host) == Transform(OidcClaims[i..], u, config, mappings, host)
      {
        var key := OidcClaims[i];
        assert OidcClaims[i..][0] == key && OidcClaims[i..][1..] == OidcClaims[i + 1..];
        if key in mappings && mappings[key] in ApiMappings {
          var inputName := ApiMappings[mappings[key]];
          if IsOn(config, "use_norm_" + key) {
            u := u[inputName := Str(host.strip(NormPattern(config, key), FieldText(u, inputName)))];
            if FieldText(u, inputName) == "" {
              return None;
            }
          }
          if IsOn(config, "use_filter_" + key) {
            if !host.matches(FilterPattern(config, key), FieldText(u, inputName)) {
              return None;
            }
          }
        }
        i := i + 1;
      }
      return Some(u);
    }

    /** resolveManagerId: the `managerId` address and, when the table has it, its account. */
    function ResolveManagerId(user: Profile): (r: ManagerRef)
      reads repo.db
      ensures r == ManagerOf(repo.db.rows, repo.authTypes, user)
    {
      var email := Get(user, "managerId");
      if !Truthy(email) then ManagerRef(None, None)
      else ManagerRef(repo.FindUserIdByEmail(TextOf(email)), Some(TextOf(email)))
    }

    /** addPendingManagerAssignment: a later assignment for the same user replaces the earlier one. */
    method AddPendingManagerAssignment(userId: nat, managerEmail: string)
      modifies this
      ensures pending == old(pending).Put(userId, managerEmail)
    {
      pending := pending.Put(userId, managerEmail);
    }

    /** handleUserCreationOrUpdate, with the effect Handle describes. */
    method HandleUserCreationOrUpdate(existing: Option<nat>, user: Profile, obj: Profile, mappings: Mappings,
                                      mgr: ManagerRef) returns (r: Placement)
      requires Valid()
      modifies this, repo.db
      ensures Valid()
      ensures (r, Snapshot()) == Handle(old(Snapshot()), existing, user, obj, mappings, mgr, host)
    {
      ghost var st0 := Snapshot();
      var id: nat;
      if existing.None? {
        if !host.admits(Get(user, LoginField(mappings)), TextOf(Get(user, "email"))) {
          return Placed(None, None);
        }
        id := repo.db.Add(NewAccount(user, mappings));
      } else {
        id := existing.value;
      }
      assert id == TargetId(st0, existing);
      assert Snapshot() == WithAccount(st0, existing, user, mappings);
      ghost var st1 := Snapshot();
      var o := Completed(obj, user, mappings, mgr);
      var data := OidcPayload(o, mappings);
      repo.db.WriteProfile(id, data, host.writeProfile);
      assert Snapshot() == WithData(st1, id, data, host);
      LinkManagerOf(id, mgr);
      o := o["id" := Int(id)];
      r := Placed(Some(o), Some(o));
    }

    /** The manager step both paths share: write a found manager, remember an unknown one by address. */
    method LinkManagerOf(id: nat, mgr: ManagerRef)
      requires Valid()
      modifies this, repo.db
      ensures Valid()
      ensures Snapshot() == LinkManager(old(Snapshot()), id, mgr)
    {
      if mgr.id.Some? {
        var _ := repo.UpdateSupervisor(id, mgr.id.value);
      } else if mgr.email.Some? {
        AddPendingManagerAssignment(id, mgr.email.value);
      }
    }

    /** createOrUpdateUser, with the effect CreateOrUpdate describes. */
    method CreateOrUpdateUser(user: Profile, config: Config, fullImport: bool) returns (r: Placement)
      requires Valid()
      modifies this, repo.db
      ensures Valid()
      ensures (r, Snapshot()) == CreateOrUpdate(old(Snapshot()), user, config, GetOidcMappings(), fullImport, host, repo.authTypes)
    {
      var mappings := GetOidcMappings();
      var normalised := NormalizeAndFilter(user, config, mappings);
      if normalised.None? {
        return Rejected;
      }
      var u := normalised.value;
      var mgr := ResolveManagerId(u);
      if !PassesDuplicateCheck(u, config, mappings) {
        return Rejected;
      }
      r := PlaceAcceptedUser(u, config, mappings, fullImport, mgr);
    }

    /** The rest of createOrUpdateUser once the user passed: find the account, then place the user. */
    method PlaceAcceptedUser(u: Profile, config: Config, mappings: Mappings, fullImport: bool, mgr: ManagerRef)
      returns (r: Placement)
      requires Valid() && mgr == ManagerOf(repo.db.rows, repo.authTypes, u)
      modifies this, repo.db
      ensures Valid()
      ensures (r, Snapshot()) == PlaceAccepted(old(Snapshot()), u, config, mappings, fullImport, host, repo.authTypes)
    {
      var obj := BuildUserObject(u);
      match FindExisting(repo.db.rows, u, config, mappings) {
        case Fatal =>
          r := Failed;
        case NotFound =>
          r := HandleUserCreationOrUpdate(None, u, obj, mappings, mgr);
        case Found(id) =>
          r := PlaceFound(id, u, obj, mappings, fullImport, mgr);
      }
    }

    /** The branch for a matched account: updated in a full import, otherwise only its manager is linked. */
    method PlaceFound(id: nat, u: Profile, obj: Profile, mappings: Mappings, fullImport: bool, mgr: ManagerRef)
      returns (r: Placement)
      requires Valid()
      modifies this, repo.db
      ensures Valid()
      ensures (r, Snapshot())
              == if id == 0 || fullImport
                 then Handle(old(Snapshot()), if id == 0 then None else Some(id), u, obj, mappings, mgr, host)
                 else (Placed(Some(obj["id" := Int(id)]), None), LinkManager(old(Snapshot()), id, mgr))
    {
      if id == 0 || fullImport {
        r := HandleUserCreationOrUpdate(if id == 0 then None else Some(id), u, obj, mappings, mgr);
      } else {
        LinkManagerOf(id, mgr);
        r := Placed(Some(obj["id" := Int(id)]), None);
      }
    }

    /** resolvePendingManagerAssignments, with the effect ResolvePending describes. */
    method ResolvePendingManagerAssignments()
      requires Valid()
      modifies this, repo.db
      ensures Valid()
      ensures Snapshot() == ResolvePending(old(Snapshot()), repo.authTypes)
    {
      if pending.keys == [] {
        assert pending.vals.Keys == {};
        assert pending == EmptyMap();
        return;
      }
      ghost var st0 := Snapshot();
      var keys, emails := pending.keys, pending.vals;
      assert forall k :: k in keys ==> k in emails;
      var i := 0;
      while i < |keys|
        invariant 0 <= i <= |keys|
        invariant repo.db.Valid() && pending == st0.pending
        invariant Snapshot() == ApplyPending(st0, keys[..i], emails, repo.authTypes)
      {
        ApplyPendingStep(st0, keys, emails, repo.authTypes, i);
        ResolveOne(keys[i], emails[keys[i]]);
        i := i + 1;
      }
      assert keys[..i] == keys;
      pending := EmptyMap();
    }

    /** One pending user of the second pass: link the manager if the e-mail lookup now finds it. */
    method ResolveOne(userId: nat, email: string)
      requires repo.db.Valid()
      modifies repo.db
      ensures repo.db.Valid()
      ensures Snapshot() == PendingStep(old(Snapshot()), userId, email, repo.authTypes)
    {
      var managerId := repo.FindUserIdByEmail(email);
      if managerId.Some? {
        var _ := repo.UpdateSupervisor(userId, managerId.value);
      }
    }

    /** deactivateUnlistedUsers, with the effect Deactivate describes. */
    method DeactivateUnlistedUsers(listedUsers: seq<Profile>, config: Config)
      requires Valid()
      modifies repo.db
      ensures Valid()
      ensures Snapshot() == Deactivate(old(Snapshot()), listedUsers, config)
    {
      var types := SweepTypes(config);
      // The selected accounts are the rows of these auth types; SweepRow leaves rows of other types alone.
      var users := repo.db.rows;
      var listedIds := ListedIds(listedUsers);
      ghost var log0 := repo.db.log;
      var i := 0;
      while i < |users|
        invariant 0 <= i <= |users|
        invariant repo.db.Valid() && repo.db.nextId == old(repo.db.nextId)
        invariant repo.db.rows == Sweep(users[..i], listedIds, types) + users[i..]
        invariant repo.db.log == log0 + SweepWrites(users[..i], listedIds, types)
      {
        SweepStep(users, listedIds, types, i);
        SweepRow(i, users[i], listedIds, types);
        i := i + 1;
      }
      assert users[..i] == users;
    }

    /** One row of deactivateUnlistedUsers: a covered account whose state disagrees with the list is updated. */
    method SweepRow(i: nat, rec: UserRec, listedIds: seq<Json>, types: seq<int>)
      requires repo.db.Valid() && i < |repo.db.rows| && repo.db.rows[i] == rec
      modifies repo.db
      ensures repo.db.Valid() && repo.db.nextId == old(repo.db.nextId)
      ensures repo.db.rows == old(repo.db.rows)[i := Swept(rec, listedIds, types)]
      ensures repo.db.log == old(repo.db.log) + SweepWrite(rec, listedIds, types)
    {
      if rec.authType in types {
        var listed := Int(rec.id) in listedIds;
        if !listed && rec.isActive {
          WithActiveChangesOneRow(repo.db.rows, i, false);
          repo.db.UpdateActive(rec.id, false);
        } else if listed && !rec.isActive {
          WithActiveChangesOneRow(repo.db.rows, i, true);
          repo.db.UpdateActive(rec.id, true);
        }
      }
    }

    /** collectUsersFromGroups: every member of every group, once, with the groups that list it. */
    method CollectUsersFromGroups(groups: OMap<string, string>) returns (userList: OMap<string, Profile>)
      requires groups.Valid()
      ensures userList == CollectFrom(Memberships(groups.keys, groups.vals, MemberLists()))
    {
      var members := MemberLists();
      userList := EmptyMap();
      var g := 0;
      while g < |groups.keys|
        invariant 0 <= g <= |groups.keys|
        invariant userList == CollectFrom(Memberships(groups.keys[..g], groups.vals, members))
      {
        var key := groups.keys[g];
        assert forall k :: k in groups.keys ==> k in groups.vals;
        MembershipsStep(groups.keys, groups.vals, members, g);
        var name := groups.vals[key];
        var usersInGroup := groupService.GetUsersInGroup(key);
        assert usersInGroup == members(key);
        ghost var done := Memberships(groups.keys[..g], groups.vals, members);
        if usersInGroup != [] {
          userList := CollectGroup(userList, usersInGroup, name, done);
        } else {
          assert done + Batch(usersInGroup, name) == done;
        }
        g := g + 1;
      }
      assert groups.keys[..g] == groups.keys;
    }

    /** importSingleUser, with the effect ImportSingle describes; None when the run ended with an error. */
    method ImportSingleUser(userId: string, groups: OMap<string, string>, config: Config, fullImport: bool)
      returns (r: Option<seq<Profile>>)
      requires Valid()
      modifies this, repo.db
      ensures Valid()
      ensures (r, Snapshot()) == ImportSingle(old(Snapshot()), fetch(UserUri(userId)), userId, groups, config,
                                              GetOidcMappings(), fullImport, host, repo.authTypes)
    {
      var response := fetch(UserUri(userId));
      if response.None? || response.value.body == Null {
        return Some([]);
      }
      var user := SingleUser(response.value.body, userId, groups);
      var result := CreateOrUpdateUser(user, config, fullImport);
      match result {
        case Failed => r := None;
        case Rejected => r := Some([]);
        case Placed(_, imported) => r := Some(OptList(imported));
      }
    }

    /** One iteration of the loop of importUsers: place the user and collect what createOrUpdateUser returned. */
    method PlaceOne(user: Profile, config: Config, fullImport: bool, listed: seq<Profile>, imported: seq<Profile>)
      returns (listed': seq<Profile>, imported': seq<Profile>, failed: bool)
      requires Valid()
      modifies this, repo.db
      ensures Valid()
      ensures Progress(Snapshot(), listed', imported', failed)
              == PlaceNext(Progress(old(Snapshot()), listed, imported, false), user, config, GetOidcMappings(),
                           fullImport, host, repo.authTypes)
    {
      listed', imported', failed := listed, imported, false;
      var result := CreateOrUpdateUser(user, config, fullImport);
      match result {
        case Failed =>
          failed := true;
        case Rejected =>
        case Placed(l, im) =>
          listed' := listed + OptList(l);
          imported' := imported + OptList(im);
      }
    }

    /** The loop of importUsers over the collected users: the listed and the reported users, or an error. */
    method PlaceUsers(users: seq<Profile>, config: Config, fullImport: bool)
      returns (listed: seq<Profile>, imported: seq<Profile>, failed: bool)
      requires Valid()
      modifies this, repo.db
      ensures Valid()
      ensures PlaceAll(old(Snapshot()), users, config, GetOidcMappings(), fullImport, host, repo.authTypes)
              == Progress(Snapshot(), listed, imported, failed)
    {
      ghost var st0 := Snapshot();
      listed, imported, failed := [], [], false;
      var i := 0;
      while i < |users|
        invariant 0 <= i <= |users|
        invariant Valid()
        invariant PlaceAll(st0, users[..i], config, GetOidcMappings(), fullImport, host, repo.authTypes)
                  == Progress(Snapshot(), listed, imported, false)
      {
        PlaceAllStep(st0, users, config, GetOidcMappings(), fullImport, host, repo.authTypes, i);
        listed, imported, failed := PlaceOne(users[i], config, fullImport, listed, imported);
        if failed {
          FailureIsFinal(st0, users, config, GetOidcMappings(), fullImport, host, repo.authTypes, i + 1);
          return;
        }
        i := i + 1;
      }
      assert users[..i] == users;
    }

    /** The group path of importUsers, with the effect GroupRun describes. */
    method ImportFromGroups(groups: OMap<string, string>, fullImport: bool, config: Config)
      returns (r: Option<seq<Profile>>)
      requires Valid() && groups.Valid() && pending.Valid()
      modifies this, repo.db
      ensures Valid()
      ensures var list := CollectFrom(Memberships(groups.keys, groups.vals, MemberLists()));
              list.Valid()
              && (r, Snapshot()) == GroupRun(old(Snapshot()), list, config, GetOidcMappings(), fullImport, host, repo.authTypes)
    {
      var userList := CollectUsersFromGroups(groups);
      CollectValid(Memberships(groups.keys, groups.vals, MemberLists()));
      var users := ListValues(userList);
      var listed, imported, failed := PlaceUsers(users, config, fullImport);
      if failed {
        return None;
      }
      ResolvePendingManagerAssignments();
      if IsOn(config, "deactivate") {
        DeactivateUnlistedUsers(listed, config);
      }
      r := Some(imported);
    }

    /** importUsers, with the effect ImportRun describes; None when an error ended the run. */
    method ImportUsers(groups: OMap<string, string>, fullImport: bool, userId: Option<string>, config: Config)
      returns (r: Option<seq<Profile>>)
      requires Valid() && groups.Valid()
      modifies this, repo.db
      ensures Valid()
      ensures var list := CollectFrom(Memberships(groups.keys, groups.vals, MemberLists()));
              list.Valid()
              && (r, Snapshot()) == ImportRun(old(Snapshot()), list, fetch(UserUri(if userId.Some? then userId.value else "")),
                                              userId, groups, config, GetOidcMappings(), fullImport, host, repo.authTypes)
    {
      CollectValid(Memberships(groups.keys, groups.vals, MemberLists()));
      pending := EmptyMap();
      if GroupPath(userId) {
        r := ImportFromGroups(groups, fullImport, config);
      } else {
        r := ImportSingleUser(userId.value, groups, config, fullImport);
        if r.Some? {
          ResolvePendingManagerAssignments();
        }
      }
    }

    /** fetchUserById: the body of the user's record (with its manager expanded), or null. */
    function FetchUserById(id: string): (r: Json)
      ensures fetch("/api/v1/users/" + id + "?expand=manager").None? ==> r == Null
      ensures fetch("/api/v1/users/" + id + "?expand=manager").Some? ==> r == fetch("/api/v1/users/" + id + "?expand=manager").value.body
    {
      var response := fetch("/api/v1/users/" + id + "?expand=manager");
      if response.Some? then response.value.body else Null
    }
  }
}
