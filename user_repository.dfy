/**
 * The GLPI user table as an in-memory store, and the repository the import
 * service uses to look users up by e-mail and to set supervisors.
 */
module Repository {
  import opened Php

  /** GLPI's authentication types: LDAP directory and external (SSO) login. */
  const LDAP: int := 3
  const EXTERNAL: int := 4

  /** One row of glpi_users, with the addresses glpi_useremails holds for it. */
  datatype UserRec = UserRec(
    id: nat,
    name: string,
    firstname: string,
    realname: string,
    phone: string,
    emails: seq<string>,
    authType: int,
    isActive: bool,
    supervisor: nat)

  /** One write the import makes to the user table, in the order it makes them. */
  datatype Write =
    | SetSupervisor(user: nat, supervisor: nat)
    | SetActive(user: nat, active: bool)
    | Created(user: nat)
    | ProfileWritten(user: nat, data: map<string, Json>)

  ghost predicate UniqueIds(rows: seq<UserRec>) {
    forall i, j :: 0 <= i < j < |rows| ==> rows[i].id != rows[j].id
  }

  /** The id of the first row (in table order) satisfying `p`, as a query with LIMIT 1 returns it. */
  function FirstId(rows: seq<UserRec>, p: UserRec -> bool): (r: Option<nat>)
    ensures r.None? <==> forall i :: 0 <= i < |rows| ==> !p(rows[i])
    ensures r.Some? ==> exists i :: 0 <= i < |rows| && rows[i].id == r.value && p(rows[i])
                                    && forall j :: 0 <= j < i ==> !p(rows[j])
  {
    if rows == [] then None
    else if p(rows[0]) then Some(rows[0].id)
    else
      var r := FirstId(rows[1..], p);
      assert forall i :: 0 <= i < |rows[1..]| ==> rows[1..][i] == rows[i + 1];
      if r.Some? then
        var i :| 0 <= i < |rows[1..]| && rows[1..][i].id == r.value && p(rows[1..][i])
                 && forall j :: 0 <= j < i ==> !p(rows[1..][j]);
        assert rows[i + 1].id == r.value && p(rows[i + 1]);
        assert forall j :: 0 <= j < i + 1 ==> !p(rows[j]) by {
          forall j | 0 <= j < i + 1
            ensures !p(rows[j])
          {
            if j > 0 {
              assert rows[j] == rows[1..][j - 1];
            }
          }
        }
        r
      else r
  }

  /** The row matched by the e-mail lookup: an address of the row equals `email` and its auth type is listed. */
  predicate HasEmail(rec: UserRec, email: string, authTypes: seq<int>) {
    email in rec.emails && rec.authType in authTypes
  }

  /** `findUserIdByEmail` on a given table: an empty (or "0") address finds nobody. */
  function EmailLookup(rows: seq<UserRec>, email: string, authTypes: seq<int>): (r: Option<nat>)
    ensures !TruthyString(email) ==> r == None
    ensures r.Some? ==> exists i :: 0 <= i < |rows| && rows[i].id == r.value && HasEmail(rows[i], email, authTypes)
                                    && forall j :: 0 <= j < i ==> !HasEmail(rows[j], email, authTypes)
    ensures TruthyString(email) && r.None? ==> forall i :: 0 <= i < |rows| ==> !HasEmail(rows[i], email, authTypes)
  {
    if !TruthyString(email) then None
    else FirstId(rows, rec => HasEmail(rec, email, authTypes))
  }

  function WithSupervisor(rows: seq<UserRec>, user: nat, supervisor: nat): (r: seq<UserRec>)
    ensures |r| == |rows|
    ensures forall i :: 0 <= i < |rows| ==>
              r[i] == if rows[i].id == user then rows[i].(supervisor := supervisor) else rows[i]
  {
    seq(|rows|, i requires 0 <= i < |rows| =>
      if rows[i].id == user then rows[i].(supervisor := supervisor) else rows[i])
  }

  function WithActive(rows: seq<UserRec>, user: nat, active: bool): (r: seq<UserRec>)
    ensures |r| == |rows|
    ensures forall i :: 0 <= i < |rows| ==>
              r[i] == if rows[i].id == user then rows[i].(isActive := active) else rows[i]
  {
    seq(|rows|, i requires 0 <= i < |rows| =>
      if rows[i].id == user then rows[i].(isActive := active) else rows[i])
  }

  /** The table after `Oidc::addUserData` rewrote the rows of one user, keeping their id. */
  function WithProfile(rows: seq<UserRec>, user: nat, data: map<string, Json>,
                       writer: (UserRec, map<string, Json>) -> UserRec): (r: seq<UserRec>)
    ensures |r| == |rows|
    ensures forall i :: 0 <= i < |rows| ==> r[i].id == rows[i].id
    ensures forall i :: 0 <= i < |rows| && rows[i].id != user ==> r[i] == rows[i]
  {
    seq(|rows|, i requires 0 <= i < |rows| =>
      if rows[i].id == user then writer(rows[i], data).(id := user) else rows[i])
  }

  /** Changing a supervisor never changes who an e-mail lookup finds. */
  lemma EmailLookupIgnoresSupervisor(rows: seq<UserRec>, user: nat, supervisor: nat, email: string, authTypes: seq<int>)
    ensures EmailLookup(WithSupervisor(rows, user, supervisor), email, authTypes) == EmailLookup(rows, email, authTypes)
  {
    var rows' := WithSupervisor(rows, user, supervisor);
    assert forall i :: 0 <= i < |rows| ==> (HasEmail(rows'[i], email, authTypes) <==> HasEmail(rows[i], email, authTypes));
    assert forall i :: 0 <= i < |rows| ==> rows'[i].id == rows[i].id;
    if TruthyString(email) {
      var p := rec => HasEmail(rec, email, authTypes);
      FirstIdAgrees(rows', rows, p);
    }
  }

  lemma {:induction false} FirstIdAgrees(a: seq<UserRec>, b: seq<UserRec>, p: UserRec -> bool)
    requires |a| == |b|
    requires forall i :: 0 <= i < |a| ==> a[i].id == b[i].id && p(a[i]) == p(b[i])
    ensures FirstId(a, p) == FirstId(b, p)
  {
    if a != [] {
      assert forall i :: 0 <= i < |a[1..]| ==> a[1..][i] == a[i + 1] && b[1..][i] == b[i + 1];
      FirstIdAgrees(a[1..], b[1..], p);
    }
  }

  /** The user table: rows in table order, the next auto-increment id, and the log of writes. */
  class UserStore {
    var rows: seq<UserRec>
    var nextId: nat
    ghost var log: seq<Write>

    ghost predicate Valid()
      reads this
    {
      1 <= nextId && UniqueIds(rows) && forall i :: 0 <= i < |rows| ==> 1 <= rows[i].id < nextId
    }

    constructor (initial: seq<UserRec>, autoIncrement: nat)
      requires 1 <= autoIncrement && UniqueIds(initial)
      requires forall i :: 0 <= i < |initial| ==> 1 <= initial[i].id < autoIncrement
      ensures Valid() && rows == initial && nextId == autoIncrement && log == []
    {
      rows := initial;
      nextId := autoIncrement;
      log := [];
    }

    /** `updateOrDie` of `users_id_supervisor` on the row with the given id. */
    method UpdateSupervisor(user: nat, supervisor: nat)
      requires Valid()
      modifies this
      ensures Valid()
      ensures rows == WithSupervisor(old(rows), user, supervisor) && nextId == old(nextId)
      ensures log == old(log) + [SetSupervisor(user, supervisor)]
    {
      rows := WithSupervisor(rows, user, supervisor);
      log := log + [SetSupervisor(user, supervisor)];
    }

    /** `updateOrDie` of `is_active` on the row with the given id. */
    method UpdateActive(user: nat, active: bool)
      requires Valid()
      modifies this
      ensures Valid()
      ensures rows == WithActive(old(rows), user, active) && nextId == old(nextId)
      ensures log == old(log) + [SetActive(user, active)]
    {
      rows := WithActive(rows, user, active);
      log := log + [SetActive(user, active)];
    }

    /** `User::add`: the new row gets the next auto-increment id. */
    method Add(rec: UserRec) returns (id: nat)
      requires Valid()
      modifies this
      ensures Valid()
      ensures id == old(nextId) && id >= 1
      ensures rows == old(rows) + [rec.(id := id)] && nextId == id + 1
      ensures log == old(log) + [Created(id)]
    {
      id := nextId;
      assert forall i :: 0 <= i < |rows| ==> rows[i].id < id;
      rows := rows + [rec.(id := id)];
      nextId := id + 1;
      log := log + [Created(id)];
    }

    /** `Oidc::addUserData`: the profile writer rewrites the user's row, keeping its id. */
    method WriteProfile(user: nat, data: map<string, Json>, writer: (UserRec, map<string, Json>) -> UserRec)
      requires Valid()
      modifies this
      ensures Valid()
      ensures rows == WithProfile(old(rows), user, data, writer) && nextId == old(nextId)
      ensures log == old(log) + [ProfileWritten(user, data)]
    {
      rows := WithProfile(rows, user, data, writer);
      log := log + [ProfileWritten(user, data)];
    }
  }

  class UserRepository {
    const db: UserStore
    const authTypes: seq<int>

    /** Without an explicit list the e-mail lookup accepts LDAP and external accounts. */
    constructor (db: UserStore, authTypes: Option<seq<int>>)
      ensures this.db == db
      ensures this.authTypes == if authTypes.Some? then authTypes.value else [LDAP, EXTERNAL]
    {
      this.db := db;
      this.authTypes := if authTypes.Some? then authTypes.value else [LDAP, EXTERNAL];
    }

    /** The first account (in table order) with that address and an accepted auth type. */
    function FindUserIdByEmail(email: string): (r: Option<nat>)
      reads db
      ensures r == EmailLookup(db.rows, email, authTypes)
    {
      EmailLookup(db.rows, email, authTypes)
    }

    /** Sets the supervisor and reports success (updateOrDie stops the run otherwise). */
    method UpdateSupervisor(userId: nat, supervisorId: nat) returns (ok: bool)
      requires db.Valid()
      modifies db
      ensures db.Valid() && ok
      ensures db.rows == WithSupervisor(old(db.rows), userId, supervisorId) && db.nextId == old(db.nextId)
      ensures db.log == old(db.log) + [SetSupervisor(userId, supervisorId)]
    {
      db.UpdateSupervisor(userId, supervisorId);
      ok := true;
    }
  }

  /** Setting the same supervisor twice leaves the table as setting it once. */
  lemma WithSupervisorIdempotent(rows: seq<UserRec>, user: nat, supervisor: nat)
    ensures WithSupervisor(WithSupervisor(rows, user, supervisor), user, supervisor) == WithSupervisor(rows, user, supervisor)
  {
  }

  /** With unique ids, an activation update changes exactly the row with that id. */
  lemma WithActiveChangesOneRow(rows: seq<UserRec>, i: nat, active: bool)
    requires UniqueIds(rows) && i < |rows|
    ensures WithActive(rows, rows[i].id, active) == rows[i := rows[i].(isActive := active)]
  {
  }

  /** With unique ids, a supervisor update changes exactly the row with that id. */
  lemma WithSupervisorChangesOneRow(rows: seq<UserRec>, i: nat, supervisor: nat)
    requires UniqueIds(rows) && i < |rows|
    ensures WithSupervisor(rows, rows[i].id, supervisor) == rows[i := rows[i].(supervisor := supervisor)]
  {
  }
}
