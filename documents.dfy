/** The documents the services read and write, and the database that holds
    their five collections. */
module Documents {
  import opened Json
  import Query

  /** A protocol event: the third element of a `[command, id, event]` frame.
      The events and likes collections store these documents as received,
      plus the fields the server adds (`servertimestamp`, `updateTime`). */
  datatype Event = Event(
    id: string,
    user: Option<string>,
    ops: Option<string>,
    code: Option<int>,
    data: Option<map<string, Val>>,
    tags: Option<seq<Tag>>,
    createdAt: Option<int>,
    sig: Option<string>,
    eventuser: Option<string>,
    serverTimestamp: Option<int>,
    updateTime: Option<int>)

  /** A document of the permissions collection. The default records written
      at initialisation carry a name, a description and scopes; the records
      the admission checks look up by `pubkey` carry a `permissions` value. */
  datatype PermissionDoc = PermissionDoc(
    oid: nat,
    name: Option<string>,
    description: string,
    scopes: seq<string>,
    pubkey: Option<string>,
    permissions: Option<int>,
    createdAt: int,
    updatedAt: int)

  /** A comment as sent by a client and as stored (the stored document is the
      request with `servertimestamp` added, then updated in place). */
  datatype CommentDoc = CommentDoc(
    id: string,
    user: Option<string>,
    data: Option<string>,
    parentId: Option<string>,
    tags: Option<seq<Tag>>,
    createdAt: Option<int>,
    sig: Option<string>,
    isDeleted: Option<bool>,
    likeCount: Option<int>,
    serverTimestamp: Option<int>,
    content: Option<string>,
    updateTime: Option<int>,
    updatedAt: Option<int>,
    deleteTime: Option<int>)

  /** A user document is an open record: `updateUser` may `$set` any key. */
  type UserDoc = map<string, Val>

  /** The value a `{ pubkey: ... }` query compares against: a missing field
      reads as null. */
  function PubkeyOf(u: UserDoc): Val {
    if "pubkey" in u then u["pubkey"] else Null
  }

  /** The unique index on `users.pubkey` (a missing key indexes as null). */
  predicate UniquePubkeys(users: seq<UserDoc>) {
    forall i, j :: 0 <= i < j < |users| ==> PubkeyOf(users[i]) != PubkeyOf(users[j])
  }

  /** Rewriting a user document without touching its key keeps the keys
      unique. */
  lemma ReplaceKeepsUnique(users: seq<UserDoc>, k: nat, doc: UserDoc)
    requires k < |users| && UniquePubkeys(users)
    requires PubkeyOf(doc) == PubkeyOf(users[k])
    ensures UniquePubkeys(users[k := doc])
  {
    var t := users[k := doc];
    forall i, j | 0 <= i < j < |t| ensures PubkeyOf(t[i]) != PubkeyOf(t[j]) {
      assert PubkeyOf(t[i]) == PubkeyOf(users[i]) && PubkeyOf(t[j]) == PubkeyOf(users[j]);
    }
  }

  /** `{ pubkey: key }` on the users collection. */
  predicate UserKeyIs(key: Val, u: UserDoc) {
    PubkeyOf(u) == key
  }

  /** `{ pubkey: key }` on the permissions collection; an undefined key is
      sent as null and matches the records that have no `pubkey`. */
  predicate PermissionKeyIs(key: Option<string>, p: PermissionDoc) {
    p.pubkey == key
  }

  /** `permissionsCollection.findOne({ pubkey: user })`, the user check shared by
      events, comments and likes. */
  function PermissionRecord(perms: seq<PermissionDoc>, user: Option<string>): (r: Option<PermissionDoc>)
    ensures r.Some? ==> r.value in perms && r.value.pubkey == user
    ensures r.None? <==> forall p :: p in perms ==> p.pubkey != user
  {
    Query.FindOne(perms, (p: PermissionDoc) => PermissionKeyIs(user, p))
  }

  class Database {
    var events: seq<Event>
    var users: seq<UserDoc>
    var permissions: seq<PermissionDoc>
    var comments: seq<CommentDoc>
    var likes: seq<Event>

    ghost predicate Valid()
      reads this
    {
      UniquePubkeys(users)
    }

    constructor ()
      ensures Valid()
      ensures events == [] && users == [] && permissions == [] && comments == [] && likes == []
    {
      events, users, permissions, comments, likes := [], [], [], [], [];
    }
  }
}
