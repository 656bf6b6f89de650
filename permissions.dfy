/** `PermissionService` (src/db/permissions.js): the three default
    permission records, assigning and revoking a permission on a user's list
    of permission ids, and reading that list back. Every write is guarded by
    an administrator signature. */
module Permissions {
  import opened Json
  import opened Documents
  import Query
  import Users

  /** The data the administrator signs, hashed as JSON. The timestamp is the
      server's clock when the request is handled. */
  datatype AdminAction =
    | InitDefaults(timestamp: int)
    | Assign(userId: Val, name: Option<string>, timestamp: int)
    | Revoke(userId: Val, name: Option<string>, timestamp: int)

  /** `ec.keyFromPublic(adminPubkey).verify(sha256(JSON.stringify(data)), sig)`:
      the curve arithmetic is not part of this model. */
  type AdminVerifier = (AdminAction, Option<string>) -> bool

  datatype PermError =
    | BadAdminSignature | AlreadyInitialised | UnknownPermission
    | UpdateFailed | UnknownUser | LookupFailed | CheckFailed

  /** `updateOne`'s answer. */
  datatype UpdateCounts = UpdateCounts(matched: nat, modified: nat)

  // ----- verifyAdminSignature -----

  /** `verifyAdminSignature` as written. `userService` is what
      `require('./users')` exports, which is the `UserService` class and not
      an instance of it; the class has no static `getUserByPubkey`, so the
      call throws a TypeError, which the `catch` turns into `false`. */
  function AdminAcceptsAsWritten(users: seq<UserDoc>, admin: string, data: AdminAction, sig: Option<string>,
                                 verify: AdminVerifier): bool
  {
    false
  }

  /** `verifyAdminSignature` as evidently intended: the administrator key is
      registered in the users collection and the signature checks out. Any
      failure is `false`; nothing is thrown. */
  function AdminAccepts(users: seq<UserDoc>, admin: string, data: AdminAction, sig: Option<string>,
                        verify: AdminVerifier): bool
  {
    Users.HasPubkey(users, Str(admin)) && verify(data, sig)
  }

  // ----- the default records -----

  function Default(oid: nat, name: string, description: string, scopes: seq<string>, now: int): PermissionDoc {
    PermissionDoc(oid, Some(name), description, scopes, None, None, now, now)
  }

  /** The three records `initDefaultPermissions` inserts. */
  function Defaults(now: int): seq<PermissionDoc> {
    [ Default(0, "admin", "管理员权限", ["user:manage", "permission:manage", "event:manage"], now),
      Default(1, "user", "普通用户权限", ["event:create", "event:read:own"], now),
      Default(2, "guest", "访客权限", ["event:read:public"], now) ]
  }

  /** The whole of `initDefaultPermissions`. */
  function Init(perms: seq<PermissionDoc>, users: seq<UserDoc>, admin: string, sig: Option<string>, now: int,
                verify: AdminVerifier): (seq<PermissionDoc>, Result<seq<PermissionDoc>, PermError>)
  {
    if !AdminAccepts(users, admin, InitDefaults(now), sig, verify) then (perms, Err(BadAdminSignature))
    else if |perms| > 0 then (perms, Err(AlreadyInitialised))
    else (perms + Defaults(now), Ok(Defaults(now)))
  }

  // ----- the permission-id list -----

  /** The `permissions` field of a user document, if present. */
  function PermissionIds(u: UserDoc): Option<Val> {
    if "permissions" in u then Some(u["permissions"]) else None
  }

  /** `$addToSet: { permissions: id }`: an absent field becomes a one-element
      array; a value that is not an array makes the update fail. */
  function AddToSet(field: Option<Val>, id: Val): Result<Val, PermError> {
    match field
    case None => Ok(Arr([id]))
    case Some(Arr(xs)) => Ok(Arr(if id in xs then xs else xs + [id]))
    case Some(_) => Err(UpdateFailed)
  }

  /** `xs` without any element equal to `v`. */
  function Without(xs: seq<Val>, v: Val): (r: seq<Val>)
    ensures v !in r
    ensures forall x :: x in r <==> x in xs && x != v
    ensures |r| <= |xs|
  {
    if xs == [] then []
    else Without(xs[..|xs| - 1], v) + (if xs[|xs| - 1] == v then [] else [xs[|xs| - 1]])
  }

  /** `$pull: { permissions: id }`: an absent field stays absent; a value that
      is not an array makes the update fail. */
  function Pull(field: Option<Val>, id: Val): Result<Option<Val>, PermError> {
    match field
    case None => Ok(None)
    case Some(Arr(xs)) => Ok(Some(Arr(Without(xs, id))))
    case Some(_) => Err(UpdateFailed)
  }

  /** `permissionsCollection.findOne({ name })`: an undefined name matches a
      record without one. */
  function Named(perms: seq<PermissionDoc>, name: Option<string>): Option<PermissionDoc> {
    Query.FindOne(perms, (p: PermissionDoc) => p.name == name)
  }

  function KeyIs(userId: Val): UserDoc -> bool {
    (u: UserDoc) => UserKeyIs(userId, u)
  }

  /** The update both operations end with on the user's document: the list
      (or its absence) and a fresh `updatedAt`. `modifiedCount` is 1 exactly
      when the document changed. */
  function Rewrite(users: seq<UserDoc>, k: nat, list: Option<Val>, now: int): (seq<UserDoc>, Result<UpdateCounts, PermError>)
    requires k < |users|
  {
    var u := users[k];
    var doc := (if list.Some? then u["permissions" := list.value] else u)["updatedAt" := Num(now)];
    (users[k := doc], Ok(UpdateCounts(1, if doc != u then 1 else 0)))
  }

  /** The whole of `assignPermission`. */
  function Assigned(users: seq<UserDoc>, perms: seq<PermissionDoc>, admin: string, userId: Val,
                    name: Option<string>, sig: Option<string>, now: int, verify: AdminVerifier)
    : (seq<UserDoc>, Result<UpdateCounts, PermError>)
  {
    match Named(perms, name)
    case None => (users, Err(UnknownPermission))
    case Some(p) =>
      if !AdminAccepts(users, admin, Assign(userId, name, now), sig, verify) then (users, Err(BadAdminSignature))
      else match Query.FirstIndex(users, KeyIs(userId))
        case None => (users, Ok(UpdateCounts(0, 0)))
        case Some(k) =>
          match AddToSet(PermissionIds(users[k]), Oid(p.oid))
          case Err(e) => (users, Err(e))
          case Ok(list) => Rewrite(users, k, Some(list), now)
  }

  /** The whole of `revokePermission`. */
  function Revoked(users: seq<UserDoc>, perms: seq<PermissionDoc>, admin: string, userId: Val,
                   name: Option<string>, sig: Option<string>, now: int, verify: AdminVerifier)
    : (seq<UserDoc>, Result<UpdateCounts, PermError>)
  {
    match Named(perms, name)
    case None => (users, Err(UnknownPermission))
    case Some(p) =>
      if !AdminAccepts(users, admin, Revoke(userId, name, now), sig, verify) then (users, Err(BadAdminSignature))
      else match Query.FirstIndex(users, KeyIs(userId))
        case None => (users, Ok(UpdateCounts(0, 0)))
        case Some(k) =>
          match Pull(PermissionIds(users[k]), Oid(p.oid))
          case Err(e) => (users, Err(e))
          case Ok(list) => Rewrite(users, k, list, now)
  }

  /** `find({ _id: { $in: ids } })` */
  function InIds(ids: seq<Val>): PermissionDoc -> bool {
    (p: PermissionDoc) => Oid(p.oid) in ids
  }

  /** `getUserPermissions`: an unknown user is an error; an absent, falsy or
      empty list gives no records; any other value than an array makes the
      `$in` query fail. */
  function UserPermissions(users: seq<UserDoc>, perms: seq<PermissionDoc>, userId: Val)
    : Result<seq<PermissionDoc>, PermError>
  {
    match Query.FindOne(users, KeyIs(userId))
    case None => Err(UnknownUser)
    case Some(u) =>
      var field := PermissionIds(u);
      if !Present(field) || field.value == Arr([]) then Ok([])
      else if field.value.Arr? then Ok(Query.Matching(perms, InIds(field.value.items)))
      else Err(LookupFailed)
  }

  class PermissionService {
    const db: Database
    const adminPubkey: string

    constructor (db: Database, adminPubkey: string)
      ensures this.db == db && this.adminPubkey == adminPubkey
    {
      this.db := db;
      this.adminPubkey := adminPubkey;
    }

    method VerifyAdminSignature(data: AdminAction, sig: Option<string>, verify: AdminVerifier) returns (ok: bool)
      ensures ok <==> Users.HasPubkey(db.users, Str(adminPubkey)) && verify(data, sig)
    {
      var admin := Query.FindOne(db.users, KeyIs(Str(adminPubkey)));
      if admin.None? {
        return false;
      }
      ok := verify(data, sig);
    }

    /** Insert the three default records into an empty collection. */
    method InitDefaultPermissions(sig: Option<string>, now: int, verify: AdminVerifier)
      returns (r: Result<seq<PermissionDoc>, PermError>)
      modifies db`permissions
      ensures (db.permissions, r) == Init(old(db.permissions), db.users, adminPubkey, sig, now, verify)
    {
      var ok := VerifyAdminSignature(InitDefaults(now), sig, verify);
      if !ok {
        return Err(BadAdminSignature);
      }
      if |db.permissions| > 0 {
        return Err(AlreadyInitialised);
      }
      db.permissions := db.permissions + Defaults(now);
      r := Ok(Defaults(now));
    }

    method AssignPermission(userId: Val, name: Option<string>, sig: Option<string>, now: int, verify: AdminVerifier)
      returns (r: Result<UpdateCounts, PermError>)
      requires db.Valid()
      modifies db`users
      ensures db.Valid()
      ensures (db.users, r) == Assigned(old(db.users), db.permissions, adminPubkey, userId, name, sig, now, verify)
    {
      var p := Named(db.permissions, name);
      if p.None? {
        return Err(UnknownPermission);
      }
      var ok := VerifyAdminSignature(Assign(userId, name, now), sig, verify);
      if !ok {
        return Err(BadAdminSignature);
      }
      var k := Query.FirstIndex(db.users, KeyIs(userId));
      if k.None? {
        return Ok(UpdateCounts(0, 0));
      }
      var list := AddToSet(PermissionIds(db.users[k.value]), Oid(p.value.oid));
      if list.Err? {
        return Err(list.error);
      }
      RewriteKeepsKeys(db.users, k.value, Some(list.value), now);
      var after := Rewrite(db.users, k.value, Some(list.value), now);
      db.users := after.0;
      r := after.1;
    }

    method RevokePermission(userId: Val, name: Option<string>, sig: Option<string>, now: int, verify: AdminVerifier)
      returns (r: Result<UpdateCounts, PermError>)
      requires db.Valid()
      modifies db`users
      ensures db.Valid()
      ensures (db.users, r) == Revoked(old(db.users), db.permissions, adminPubkey, userId, name, sig, now, verify)
    {
      var p := Named(db.permissions, name);
      if p.None? {
        return Err(UnknownPermission);
      }
      var ok := VerifyAdminSignature(Revoke(userId, name, now), sig, verify);
      if !ok {
        return Err(BadAdminSignature);
      }
      var k := Query.FirstIndex(db.users, KeyIs(userId));
      if k.None? {
        return Ok(UpdateCounts(0, 0));
      }
      var list := Pull(PermissionIds(db.users[k.value]), Oid(p.value.oid));
      if list.Err? {
        return Err(list.error);
      }
      RewriteKeepsKeys(db.users, k.value, list.value, now);
      var after := Rewrite(db.users, k.value, list.value, now);
      db.users := after.0;
      r := after.1;
    }

    method GetUserPermissions(userId: Val) returns (r: Result<seq<PermissionDoc>, PermError>)
      ensures r == UserPermissions(db.users, db.permissions, userId)
    {
      var u := Query.FindOne(db.users, KeyIs(userId));
      if u.None? {
        return Err(UnknownUser);
      }
      var field := PermissionIds(u.value);
      if !Present(field) || field.value == Arr([]) {
        return Ok([]);
      }
      if !field.value.Arr? {
        return Err(LookupFailed);
      }
      var found := Query.Find(db.permissions, InIds(field.value.items), 0, 0);
      return Ok(found);
    }

    /** `permissions.some(perm => perm.name === permissionName)`; any failure
        of the lookup is rethrown as a new error. */
    method HasPermission(userId: Val, name: Option<string>) returns (r: Result<bool, PermError>)
      ensures UserPermissions(db.users, db.permissions, userId).Err? <==> r == Err(CheckFailed)
      ensures UserPermissions(db.users, db.permissions, userId).Ok? ==>
        r == Ok(exists p :: p in UserPermissions(db.users, db.permissions, userId).value && p.name == name)
    {
      var list := GetUserPermissions(userId);
      if list.Err? {
        return Err(CheckFailed);
      }
      var i := 0;
      while i < |list.value|
        invariant 0 <= i <= |list.value|
        invariant forall j :: 0 <= j < i ==> list.value[j].name != name
      {
        if list.value[i].name == name {
          return Ok(true);
        }
        i := i + 1;
      }
      return Ok(false);
    }
  }

  // ----- properties -----

  /** The list update leaves the key of the document alone. */
  lemma RewriteKeepsKeys(users: seq<UserDoc>, k: nat, list: Option<Val>, now: int)
    requires k < |users| && UniquePubkeys(users)
    ensures UniquePubkeys(Rewrite(users, k, list, now).0)
  {
    var u := users[k];
    var doc := (if list.Some? then u["permissions" := list.value] else u)["updatedAt" := Num(now)];
    assert PubkeyOf(doc) == PubkeyOf(u);
    ReplaceKeepsUnique(users, k, doc);
  }

  /** As written, no administrator signature is ever accepted, so
      initialisation, assignment and revocation always fail; the intended
      check accepts a registered administrator with a valid signature. */
  lemma AdminNeverAcceptedAsWritten(users: seq<UserDoc>, admin: string, data: AdminAction, sig: Option<string>,
                                    verify: AdminVerifier)
    requires Users.HasPubkey(users, Str(admin)) && verify(data, sig)
    ensures !AdminAcceptsAsWritten(users, admin, data, sig, verify)
    ensures AdminAccepts(users, admin, data, sig, verify)
  {
  }

  /** An unregistered administrator key is refused whatever the signature. */
  lemma UnregisteredAdminRefused(users: seq<UserDoc>, admin: string, data: AdminAction, sig: Option<string>,
                                 verify: AdminVerifier)
    requires forall u :: u in users ==> PubkeyOf(u) != Str(admin)
    ensures !AdminAccepts(users, admin, data, sig, verify)
  {
    forall k | 0 <= k < |users| ensures PubkeyOf(users[k]) != Str(admin) {
      assert users[k] in users;
    }
  }

  /** Initialisation needs the administrator and an empty collection, and
      then adds exactly the records `admin`, `user` and `guest`; a second
      initialisation always fails. */
  lemma InitOnce(perms: seq<PermissionDoc>, users: seq<UserDoc>, admin: string, sig: Option<string>, now: int,
                 later: int, verify: AdminVerifier)
    ensures !AdminAccepts(users, admin, InitDefaults(now), sig, verify) ==>
      Init(perms, users, admin, sig, now, verify) == (perms, Err(BadAdminSignature))
    ensures AdminAccepts(users, admin, InitDefaults(now), sig, verify) && |perms| > 0 ==>
      Init(perms, users, admin, sig, now, verify) == (perms, Err(AlreadyInitialised))
    ensures Init(perms, users, admin, sig, now, verify).1.Ok? ==>
      && perms == []
      && var after := Init(perms, users, admin, sig, now, verify).0;
      && |after| == 3
      && after[0].name == Some("admin") && after[1].name == Some("user") && after[2].name == Some("guest")
      && Init(after, users, admin, sig, later, verify).1.Err?
  {
  }

  /** Assigning is a set-add: the id is in the list afterwards, nothing else
      is added or lost, and a list without duplicates keeps none. */
  lemma AssignIsSetAdd(field: Option<Val>, id: Val)
    requires AddToSet(field, id).Ok?
    ensures var list := AddToSet(field, id).value;
      && list.Arr? && id in list.items
      && (forall x :: x in list.items <==> x == id || (field.Some? && x in field.value.items))
      && (field.Some? && NoDuplicates(field.value.items) ==> NoDuplicates(list.items))
  {
    if field.Some? && id !in field.value.items && NoDuplicates(field.value.items) {
      var xs := field.value.items;
      var ys := xs + [id];
      forall i, j | 0 <= i < j < |ys| ensures ys[i] != ys[j] {
        if j == |xs| {
          assert ys[i] == xs[i];
        }
      }
    }
  }

  predicate NoDuplicates(xs: seq<Val>) {
    forall i, j :: 0 <= i < j < |xs| ==> xs[i] != xs[j]
  }

  /** Assigning a permission the user already holds leaves the list as it is. */
  lemma ReassignKeepsList(xs: seq<Val>, id: Val)
    requires id in xs
    ensures AddToSet(Some(Arr(xs)), id) == Ok(Arr(xs))
  {
  }

  /** Even so, `modifiedCount` is 1 unless `updatedAt` already held the same
      time: the `$set` of the timestamp always rewrites the document. */
  lemma ReassignStillModifies(users: seq<UserDoc>, k: nat, xs: seq<Val>, id: Val, now: int)
    requires k < |users| && PermissionIds(users[k]) == Some(Arr(xs)) && id in xs
    requires "updatedAt" !in users[k] || users[k]["updatedAt"] != Num(now)
    ensures Rewrite(users, k, Some(AddToSet(PermissionIds(users[k]), id).value), now).1 == Ok(UpdateCounts(1, 1))
  {
    var u := users[k];
    var doc := u["permissions" := Arr(xs)]["updatedAt" := Num(now)];
    assert doc["updatedAt"] == Num(now);
    assert doc != u;
  }

  /** Revoking removes every occurrence of the id and keeps every other id;
      revoking one the user does not hold leaves the list as it is. */
  lemma RevokeRemoves(xs: seq<Val>, id: Val)
    ensures Pull(Some(Arr(xs)), id).Ok?
    ensures var list := Pull(Some(Arr(xs)), id).value.value;
      id !in list.items && forall x :: x != id ==> (x in list.items <==> x in xs)
    ensures id !in xs ==> Pull(Some(Arr(xs)), id) == Ok(Some(Arr(xs)))
  {
    if id !in xs {
      WithoutAbsent(xs, id);
    }
  }

  lemma {:induction false} WithoutAbsent(xs: seq<Val>, v: Val)
    requires v !in xs
    ensures Without(xs, v) == xs
  {
    if xs != [] {
      var init := xs[..|xs| - 1];
      assert v !in init by {
        forall i | 0 <= i < |init| ensures init[i] != v {
          assert init[i] == xs[i];
        }
      }
      WithoutAbsent(init, v);
      assert xs == init + [xs[|xs| - 1]];
    }
  }

  /** Revoking a permission that was just assigned to a user who lacked it
      restores the user's list. */
  lemma AssignThenRevokeRestores(xs: seq<Val>, id: Val)
    requires id !in xs
    ensures Pull(Some(AddToSet(Some(Arr(xs)), id).value), id) == Ok(Some(Arr(xs)))
  {
    var ys := xs + [id];
    assert AddToSet(Some(Arr(xs)), id) == Ok(Arr(ys));
    assert ys[..|ys| - 1] == xs;
    assert Without(ys, id) == Without(xs, id);
    WithoutAbsent(xs, id);
  }

  /** A permission name that does not exist is refused before the signature
      is looked at. */
  lemma UnknownNameBeforeSignature(users: seq<UserDoc>, perms: seq<PermissionDoc>, admin: string, userId: Val,
                                   name: Option<string>, sig: Option<string>, now: int, verify: AdminVerifier)
    requires forall p :: p in perms ==> p.name != name
    ensures Assigned(users, perms, admin, userId, name, sig, now, verify) == (users, Err(UnknownPermission))
    ensures Revoked(users, perms, admin, userId, name, sig, now, verify) == (users, Err(UnknownPermission))
  {
    forall k | 0 <= k < |perms| ensures perms[k].name != name {
      assert perms[k] in perms;
    }
  }

  /** The records `getUserPermissions` returns are exactly those whose id is
      in the user's list. */
  lemma UserPermissionsExact(users: seq<UserDoc>, perms: seq<PermissionDoc>, userId: Val, p: PermissionDoc)
    requires UserPermissions(users, perms, userId).Ok?
    requires Query.FindOne(users, KeyIs(userId)).Some?
    ensures var u := Query.FindOne(users, KeyIs(userId)).value;
      p in UserPermissions(users, perms, userId).value <==>
        p in perms && PermissionIds(u).Some? && PermissionIds(u).value.Arr? &&
        Oid(p.oid) in PermissionIds(u).value.items
  {
    var u := Query.FindOne(users, KeyIs(userId)).value;
    var field := PermissionIds(u);
    if field.Some? && field.value.Arr? && p in perms && Oid(p.oid) in field.value.items {
      Query.MatchingComplete(perms, InIds(field.value.items), p);
    }
  }

  /** An unknown user is an error; a user with an empty or absent list has no
      records. */
  lemma UserPermissionsEdges(users: seq<UserDoc>, perms: seq<PermissionDoc>, userId: Val)
    ensures (forall u :: u in users ==> PubkeyOf(u) != userId) ==> UserPermissions(users, perms, userId) == Err(UnknownUser)
    ensures Query.FindOne(users, KeyIs(userId)).Some? &&
            PermissionIds(Query.FindOne(users, KeyIs(userId)).value) in {None, Some(Arr([]))} ==>
      UserPermissions(users, perms, userId) == Ok([])
  {
    if Query.FindOne(users, KeyIs(userId)).Some? {
      var u := Query.FindOne(users, KeyIs(userId)).value;
      assert u in users;
    }
  }
}
