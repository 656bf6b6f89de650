/** `CommentService` (src/db/comments.js): creating, querying, editing,
    logically deleting and liking comments, and nesting a flat list of
    comments into reply lists. */
module Comments {
  import opened Json
  import opened Documents
  import Query

  /** The outcome of a comment operation; `Code` gives the reply's `code`. */
  datatype Status = TimeSkew | UnknownUser | BadSignature | EmptyContent | NotFound | Forbidden | Done

  function Code(s: Status): int {
    match s
    case TimeSkew => 500
    case UnknownUser => 500
    case BadSignature => 500
    case EmptyContent => 400
    case NotFound => 404
    case Forbidden => 403
    case Done => 200
  }

  datatype UpdateRequest = UpdateRequest(commentId: string, user: Option<string>, content: Option<string>,
                                         updatedAt: Option<int>, sig: Option<string>)
  datatype DeleteRequest = DeleteRequest(commentId: string, user: Option<string>, cascade: Option<Val>,
                                         sig: Option<string>)
  datatype LikeRequest = LikeRequest(commentId: string, isLiked: Option<Val>)
  /** The query parameters `readComments` and `counts` look at. */
  datatype CommentQuery = CommentQuery(tags: Option<seq<Tag>>, eventuser: Option<string>,
                                       limit: Option<int>, offset: Option<int>)

  /** `verifyEvent(x, x.user)` for each kind of request. */
  type CommentVerifier = (CommentDoc, Option<string>) -> bool
  type UpdateVerifier = (UpdateRequest, Option<string>) -> bool
  type DeleteVerifier = (DeleteRequest, Option<string>) -> bool

  /** `!s || s.trim() === ''` */
  predicate NoText(s: Option<string>) {
    s.None? || Blank(s.value)
  }

  /** The checks of `createComment` in their order. */
  function CreateCheck(c: CommentDoc, now: int, perms: seq<PermissionDoc>, verify: CommentVerifier): Status {
    if SkewMillisExceeds(c.createdAt, now) then TimeSkew
    else if PermissionRecord(perms, c.user).None? then UnknownUser
    else if !verify(c, c.user) then BadSignature
    else if NoText(c.data) then EmptyContent
    else Done
  }

  /** `findOne({ id, isDeleted: false })`: a document whose `isDeleted` field
      is absent does not match. */
  function Live(cs: seq<CommentDoc>, id: string): (r: Option<CommentDoc>)
    ensures r.Some? ==> r.value in cs && r.value.id == id && r.value.isDeleted == Some(false)
    ensures r.None? <==> forall c :: c in cs ==> !(c.id == id && c.isDeleted == Some(false))
  {
    Query.FindOne(cs, (c: CommentDoc) => c.id == id && c.isDeleted == Some(false))
  }

  /** The document `updateOne({ id }, ...)` changes: the first with that id,
      deleted or not. */
  function Target(cs: seq<CommentDoc>, id: string): (k: Option<nat>)
    ensures k.Some? ==> k.value < |cs| && cs[k.value].id == id
    ensures k.Some? ==> forall j :: 0 <= j < k.value ==> cs[j].id != id
    ensures k.None? ==> forall j :: 0 <= j < |cs| ==> cs[j].id != id
  {
    Query.FirstIndex(cs, (c: CommentDoc) => c.id == id)
  }

  /** The not-found and author-or-admin gates shared by update and delete. */
  function AccessCheck(cs: seq<CommentDoc>, id: string, user: Option<string>, admin: string): Status {
    match Live(cs, id)
    case None => NotFound
    case Some(c) => if user != c.user && user != Some(admin) then Forbidden else Done
  }

  function UpdateCheck(cs: seq<CommentDoc>, u: UpdateRequest, admin: string, verify: UpdateVerifier): Status {
    var access := AccessCheck(cs, u.commentId, u.user, admin);
    if access != Done then access
    else if !verify(u, u.user) then BadSignature
    else if NoText(u.content) then EmptyContent
    else Done
  }

  function DeleteCheck(cs: seq<CommentDoc>, d: DeleteRequest, admin: string, verify: DeleteVerifier): Status {
    var access := AccessCheck(cs, d.commentId, d.user, admin);
    if access != Done then access
    else if !verify(d, d.user) then BadSignature
    else Done
  }

  /** `{ parentId: id, isDeleted: false }`, the cascade's filter. */
  predicate LiveChildOf(c: CommentDoc, id: string) {
    c.parentId == Some(id) && c.isDeleted == Some(false)
  }

  function Tombstone(c: CommentDoc, now: int): CommentDoc {
    c.(isDeleted := Some(true), deleteTime := Some(now))
  }

  /** `updateMany({ parentId: id, isDeleted: false }, { $set: { isDeleted: true, ... } })` */
  function Cascaded(cs: seq<CommentDoc>, id: string, now: int): (r: seq<CommentDoc>)
    ensures |r| == |cs|
    ensures forall k :: 0 <= k < |cs| ==> r[k] == if LiveChildOf(cs[k], id) then Tombstone(cs[k], now) else cs[k]
  {
    seq(|cs|, k requires 0 <= k < |cs| => if LiveChildOf(cs[k], id) then Tombstone(cs[k], now) else cs[k])
  }

  /** `$inc: { likeCount: +1 or -1 }`: a missing count starts from 0. */
  function Bumped(c: CommentDoc, liked: bool): CommentDoc {
    c.(likeCount := Some(c.likeCount.GetOr(0) + (if liked then 1 else -1)))
  }

  /** The `{ tags: { $all }, user }` filter of `readComments` and `counts`. */
  function CommentFilter(tags: Option<seq<Tag>>, eventuser: Option<string>): CommentDoc -> bool {
    (c: CommentDoc) => (tags.Some? ==> HasAllTags(c.tags, tags.value)) &&
                       (Filled(eventuser) ==> c.user == eventuser)
  }

  /** `limit` defaults to 100 and is replaced by any truthy value. */
  function PageLimit(q: CommentQuery): (n: int)
    ensures q.limit.None? || q.limit.value == 0 ==> n == 100
    ensures q.limit.Some? && q.limit.value != 0 ==> n == q.limit.value
  {
    if q.limit.Some? && q.limit.value != 0 then q.limit.value else 100
  }

  /** `Math.max(0, parseInt(offset, 10) || 0)` when `offset` is truthy, else 0. */
  function PageOffset(q: CommentQuery): (n: nat)
    ensures n <= Abs(q.offset.GetOr(0))
    ensures q.offset.Some? && q.offset.value >= 0 ==> n == q.offset.value
  {
    if q.offset.Some? && q.offset.value > 0 then q.offset.value else 0
  }

  class CommentService {
    const db: Database
    const adminPubkey: string

    constructor (db: Database, adminPubkey: string)
      ensures this.db == db && this.adminPubkey == adminPubkey
    {
      this.db := db;
      this.adminPubkey := adminPubkey;
    }

    /** Insert the comment, stamped, when every check passes; reply with its id. */
    method CreateComment(c: CommentDoc, now: int, verify: CommentVerifier)
      returns (status: Status, commentId: Option<string>)
      modifies db`comments
      ensures status == CreateCheck(c, now, db.permissions, verify)
      ensures status == Done ==> (commentId == Some(c.id) &&
        db.comments == old(db.comments) + [c.(serverTimestamp := Some(now))])
      ensures status != Done ==> commentId.None? && db.comments == old(db.comments)
    {
      commentId := None;
      if SkewMillisExceeds(c.createdAt, now) {
        return TimeSkew, None;
      }
      var user := PermissionRecord(db.permissions, c.user);
      if user.None? {
        return UnknownUser, None;
      }
      var isValid := verify(c, c.user);
      if !isValid {
        return BadSignature, None;
      }
      if c.data.None? || Blank(c.data.value) {
        return EmptyContent, None;
      }
      db.comments := db.comments + [c.(serverTimestamp := Some(now))];
      status, commentId := Done, Some(c.id);
    }

    /** `find(query).skip(offset).limit(limit)`; the sort by `created_at` or
        `likeCount` is not modelled. Deleted comments are not filtered out. */
    method ReadComments(q: CommentQuery) returns (r: seq<CommentDoc>)
      ensures r == Query.Window(db.comments, CommentFilter(q.tags, q.eventuser), PageOffset(q), PageLimit(q))
      ensures |r| <= Abs(PageLimit(q))
      ensures forall c :: c in r ==> c in db.comments && CommentFilter(q.tags, q.eventuser)(c)
    {
      r := Query.Find(db.comments, CommentFilter(q.tags, q.eventuser), PageOffset(q), PageLimit(q));
    }

    /** Edit the first comment with the id, after the not-found, author-or-admin,
        signature and content checks. */
    method UpdateComment(u: UpdateRequest, now: int, verify: UpdateVerifier) returns (status: Status)
      modifies db`comments
      ensures status == UpdateCheck(old(db.comments), u, adminPubkey, verify)
      ensures status != Done ==> db.comments == old(db.comments)
      ensures status == Done ==> (Target(old(db.comments), u.commentId).Some? &&
        var k := Target(old(db.comments), u.commentId).value;
        db.comments == old(db.comments)[k := old(db.comments)[k].(content := u.content,
          updateTime := Some(now), updatedAt := u.updatedAt)])
    {
      var found := Live(db.comments, u.commentId);
      if found.None? {
        return NotFound;
      }
      if u.user != found.value.user && u.user != Some(adminPubkey) {
        return Forbidden;
      }
      var isValid := verify(u, u.user);
      if !isValid {
        return BadSignature;
      }
      if u.content.None? || Blank(u.content.value) {
        return EmptyContent;
      }
      var k := Target(db.comments, u.commentId).value;
      db.comments := db.comments[k := db.comments[k].(content := u.content, updateTime := Some(now),
                                                     updatedAt := u.updatedAt)];
      status := Done;
    }

    /** Logical delete of the first comment with the id; when the admin asks
        for `cascade === true`, its live direct replies are marked too. */
    method DeleteComment(d: DeleteRequest, now: int, verify: DeleteVerifier) returns (status: Status)
      modifies db`comments
      ensures status == DeleteCheck(old(db.comments), d, adminPubkey, verify)
      ensures status != Done ==> db.comments == old(db.comments)
      ensures status == Done ==> (Target(old(db.comments), d.commentId).Some? &&
        var k := Target(old(db.comments), d.commentId).value;
        var marked := old(db.comments)[k := Tombstone(old(db.comments)[k], now)];
        db.comments == if d.user == Some(adminPubkey) && d.cascade == Some(Bool(true))
                       then Cascaded(marked, d.commentId, now) else marked)
    {
      var found := Live(db.comments, d.commentId);
      if found.None? {
        return NotFound;
      }
      if d.user != found.value.user && d.user != Some(adminPubkey) {
        return Forbidden;
      }
      var isValid := verify(d, d.user);
      if !isValid {
        return BadSignature;
      }
      var k := Target(db.comments, d.commentId).value;
      db.comments := db.comments[k := Tombstone(db.comments[k], now)];
      if d.user == Some(adminPubkey) && d.cascade == Some(Bool(true)) {
        MarkReplies(d.commentId, now);
      }
      status := Done;
    }

    /** The cascade's `updateMany`, one document at a time. */
    method MarkReplies(id: string, now: int)
      modifies db`comments
      ensures db.comments == Cascaded(old(db.comments), id, now)
    {
      ghost var before := db.comments;
      var i := 0;
      while i < |db.comments|
        invariant |db.comments| == |before|
        invariant 0 <= i <= |before|
        invariant forall k :: 0 <= k < i ==>
          db.comments[k] == if LiveChildOf(before[k], id) then Tombstone(before[k], now) else before[k]
        invariant forall k :: i <= k < |before| ==> db.comments[k] == before[k]
      {
        if LiveChildOf(db.comments[i], id) {
          db.comments := db.comments[i := Tombstone(db.comments[i], now)];
        }
        i := i + 1;
      }
    }

    /** Add or remove one like on a live comment and report the new count. */
    method UpdateLikeCount(l: LikeRequest) returns (status: Status, likeCount: Option<int>)
      modifies db`comments
      ensures Live(old(db.comments), l.commentId).None? ==>
        status == NotFound && likeCount.None? && db.comments == old(db.comments)
      ensures Live(old(db.comments), l.commentId).Some? ==> (
        status == Done && Target(old(db.comments), l.commentId).Some? &&
        var k := Target(old(db.comments), l.commentId).value;
        db.comments == old(db.comments)[k := Bumped(old(db.comments)[k], Present(l.isLiked))] &&
        likeCount == Some(old(db.comments)[k].likeCount.GetOr(0) + (if Present(l.isLiked) then 1 else -1)))
    {
      var found := Live(db.comments, l.commentId);
      if found.None? {
        return NotFound, None;
      }
      var k := Target(db.comments, l.commentId).value;
      db.comments := db.comments[k := Bumped(db.comments[k], Present(l.isLiked))];
      assert Target(db.comments, l.commentId) == Some(k) by {
        assert db.comments[k].id == l.commentId;
        assert forall j :: 0 <= j < k ==> db.comments[j] == old(db.comments)[j];
      }
      var updated := Target(db.comments, l.commentId).value;
      status, likeCount := Done, db.comments[updated].likeCount;
    }

    /** `countDocuments` with the `readComments` filter. */
    method Counts(q: CommentQuery) returns (code: int, total: nat)
      ensures code == 200
      ensures total == |Query.Matching(db.comments, CommentFilter(q.tags, q.eventuser))|
      ensures forall c :: c in db.comments && CommentFilter(q.tags, q.eventuser)(c) ==> total > 0
    {
      var all := Query.Find(db.comments, CommentFilter(q.tags, q.eventuser), 0, 0);
      forall c | c in db.comments && CommentFilter(q.tags, q.eventuser)(c) ensures |all| > 0 {
        Query.MatchingComplete(db.comments, CommentFilter(q.tags, q.eventuser), c);
      }
      code, total := 200, |all|;
    }
  }

  // ----- nesting replies -----

  /** The result of `buildNestedComments`, with object references written as
      ids: `nodes` is the id-to-comment map (a later comment with the same id
      replaces an earlier one), `replies` each node's reply list and `roots`
      the top-level list. */
  datatype Forest = Forest(roots: seq<string>, nodes: map<string, CommentDoc>, replies: map<string, seq<string>>)

  function Ids(cs: seq<CommentDoc>): set<string> {
    set c | c in cs :: c.id
  }

  /** `comment.parentId && commentMap.has(comment.parentId)` */
  predicate Nested(c: CommentDoc, ids: set<string>) {
    Filled(c.parentId) && c.parentId.value in ids
  }

  /** Ids of the comments of `cs` that are not nested under one of `ids`, in
      input order. */
  function RootList(cs: seq<CommentDoc>, ids: set<string>): seq<string> {
    if cs == [] then []
    else RootList(cs[..|cs| - 1], ids) + (if Nested(cs[|cs| - 1], ids) then [] else [cs[|cs| - 1].id])
  }

  /** Ids of the comments of `cs` nested under `parent`, in input order. */
  function ReplyList(cs: seq<CommentDoc>, ids: set<string>, parent: string): seq<string> {
    if cs == [] then []
    else
      ReplyList(cs[..|cs| - 1], ids, parent) +
      (if Nested(cs[|cs| - 1], ids) && cs[|cs| - 1].parentId.value == parent then [cs[|cs| - 1].id] else [])
  }

  /** Ids of the top-level comments, in input order. */
  function RootIds(cs: seq<CommentDoc>): seq<string> {
    RootList(cs, Ids(cs))
  }

  /** Ids of the replies to `parent`, in input order. */
  function ReplyIds(cs: seq<CommentDoc>, parent: string): seq<string> {
    ReplyList(cs, Ids(cs), parent)
  }

  /** `i` is the position of the last comment with the id. */
  predicate LastWith(cs: seq<CommentDoc>, id: string, i: int) {
    0 <= i < |cs| && cs[i].id == id && forall j :: i < j < |cs| ==> cs[j].id != id
  }

  /** Appending a comment makes it the last one with its id and keeps the
      last positions of every other id. */
  lemma LastByIdStep(init: seq<CommentDoc>, last: CommentDoc, m: map<string, CommentDoc>)
    requires forall id :: id in m ==> exists i :: LastWith(init, id, i) && init[i] == m[id]
    ensures var cs := init + [last]; var r := m[last.id := last];
      forall id :: id in r ==> exists i :: LastWith(cs, id, i) && cs[i] == r[id]
  {
    var cs := init + [last];
    var r := m[last.id := last];
    forall id | id in r
      ensures exists i :: LastWith(cs, id, i) && cs[i] == r[id]
    {
      if id == last.id {
        assert LastWith(cs, id, |cs| - 1);
      } else {
        var i :| LastWith(init, id, i) && init[i] == m[id];
        assert LastWith(cs, id, i);
      }
    }
  }

  /** Last comment of the list with each id (`Map.set` overwrites). */
  function LastById(cs: seq<CommentDoc>): (m: map<string, CommentDoc>)
    ensures m.Keys == Ids(cs)
    ensures forall id :: id in m ==> exists i :: LastWith(cs, id, i) && cs[i] == m[id]
  {
    if cs == [] then map[]
    else
      var init := cs[..|cs| - 1];
      var last := cs[|cs| - 1];
      var m := LastById(init);
      assert Ids(cs) == Ids(init) + {last.id} by {
        assert cs == init + [last];
      }
      assert cs == init + [last];
      LastByIdStep(init, last, m);
      m[last.id := last]
  }

  method BuildNestedComments(comments: seq<CommentDoc>) returns (f: Forest)
    ensures f.nodes == LastById(comments)
    ensures f.roots == RootIds(comments)
    ensures f.replies.Keys == Ids(comments)
    ensures forall p :: p in f.replies ==> f.replies[p] == ReplyIds(comments, p)
  {
    var nodes, replies := IndexComments(comments);
    var roots;
    roots, replies := LinkReplies(comments, nodes, replies);
    f := Forest(roots, nodes, replies);
  }

  /** The first pass: every comment enters the map with an empty reply list. */
  method IndexComments(comments: seq<CommentDoc>)
    returns (nodes: map<string, CommentDoc>, replies: map<string, seq<string>>)
    ensures nodes == LastById(comments)
    ensures replies.Keys == Ids(comments)
    ensures forall p :: p in replies ==> replies[p] == []
  {
    nodes, replies := map[], map[];
    var i := 0;
    while i < |comments|
      invariant 0 <= i <= |comments|
      invariant nodes == LastById(comments[..i])
      invariant replies.Keys == Ids(comments[..i])
      invariant forall p :: p in replies ==> replies[p] == []
    {
      assert comments[..i + 1][..i] == comments[..i];
      nodes := nodes[comments[i].id := comments[i]];
      replies := replies[comments[i].id := []];
      i := i + 1;
    }
    assert comments[..i] == comments;
  }

  /** The reply lists of every id in `ids` after scanning `cs`. */
  ghost function Links(cs: seq<CommentDoc>, ids: set<string>): map<string, seq<string>> {
    map p | p in ids :: ReplyList(cs, ids, p)
  }

  /** The second pass: each comment goes to its parent's reply list when the
      parent is in the map, and to the top-level list otherwise. */
  method LinkReplies(comments: seq<CommentDoc>, nodes: map<string, CommentDoc>, empty: map<string, seq<string>>)
    returns (roots: seq<string>, replies: map<string, seq<string>>)
    requires nodes.Keys == Ids(comments) && empty.Keys == Ids(comments)
    requires forall p :: p in empty ==> empty[p] == []
    ensures roots == RootIds(comments)
    ensures replies.Keys == Ids(comments)
    ensures forall p :: p in replies ==> replies[p] == ReplyIds(comments, p)
  {
    ghost var ids := Ids(comments);
    roots, replies := [], empty;
    assert comments[..0] == [];
    assert replies == Links(comments[..0], ids);
    var i := 0;
    while i < |comments|
      invariant 0 <= i <= |comments|
      invariant roots == RootList(comments[..i], ids)
      invariant replies == Links(comments[..i], ids)
    {
      var c := comments[i];
      assert comments[..i + 1][..i] == comments[..i];
      LinksStep(comments, i, ids);
      if c.parentId.Some? && c.parentId.value != "" && c.parentId.value in nodes {
        replies := replies[c.parentId.value := replies[c.parentId.value] + [c.id]];
      } else {
        roots := roots + [c.id];
      }
      i := i + 1;
    }
    assert comments[..i] == comments;
  }

  // ----- properties -----

  lemma LinksStep(cs: seq<CommentDoc>, i: nat, ids: set<string>)
    requires i < |cs|
    ensures var before := Links(cs[..i], ids);
      Links(cs[..i + 1], ids) ==
        if Nested(cs[i], ids) then before[cs[i].parentId.value := before[cs[i].parentId.value] + [cs[i].id]]
        else before
  {
    var before := Links(cs[..i], ids);
    var after := Links(cs[..i + 1], ids);
    assert cs[..i + 1][..i] == cs[..i];
    forall q | q in ids
      ensures after[q] == if Nested(cs[i], ids) && cs[i].parentId.value == q then before[q] + [cs[i].id] else before[q]
    {
    }
  }

  lemma {:induction false} RootListIff(cs: seq<CommentDoc>, ids: set<string>, x: string)
    ensures x in RootList(cs, ids) <==> exists c :: c in cs && c.id == x && !Nested(c, ids)
  {
    if cs != [] {
      var init, last := cs[..|cs| - 1], cs[|cs| - 1];
      RootListIff(init, ids, x);
      assert cs == init + [last];
    }
  }

  lemma {:induction false} ReplyListIff(cs: seq<CommentDoc>, ids: set<string>, p: string, x: string)
    ensures x in ReplyList(cs, ids, p) <==>
      exists c :: c in cs && c.id == x && Nested(c, ids) && c.parentId.value == p
  {
    if cs != [] {
      var init, last := cs[..|cs| - 1], cs[|cs| - 1];
      ReplyListIff(init, ids, p, x);
      assert cs == init + [last];
    }
  }

  /** A comment is a root exactly when it has no `parentId` or its parent is
      not in the list. */
  lemma RootIff(cs: seq<CommentDoc>, x: string)
    ensures x in RootIds(cs) <==>
      exists c :: c in cs && c.id == x && !(Filled(c.parentId) && c.parentId.value in Ids(cs))
  {
    RootListIff(cs, Ids(cs), x);
  }

  /** A comment is a reply to `p` exactly when its non-empty `parentId` is `p`
      and `p` is the id of some comment of the list. */
  lemma ReplyIff(cs: seq<CommentDoc>, p: string, x: string)
    ensures x in ReplyIds(cs, p) <==>
      exists c :: c in cs && c.id == x && c.parentId == Some(p) && p != "" && p in Ids(cs)
  {
    ReplyListIff(cs, Ids(cs), p, x);
  }

  /** Two comments that name each other as parent both land in reply lists,
      so neither reaches the top level: the node graph has a cycle. */
  lemma MutualParentsLeaveNoRoot(a: CommentDoc, b: CommentDoc)
    requires a.id == "a" && b.id == "b" && a.parentId == Some("b") && b.parentId == Some("a")
    ensures RootIds([a, b]) == []
    ensures ReplyIds([a, b], "a") == ["b"] && ReplyIds([a, b], "b") == ["a"]
  {
    var cs := [a, b];
    assert Ids(cs) == {"a", "b"};
    assert cs[..1] == [a];
    assert [a][..0] == [];
    assert Nested(a, Ids(cs)) && Nested(b, Ids(cs));
    assert RootList([a], Ids(cs)) == [];
    assert ReplyList([a], Ids(cs), "a") == [];
    assert ReplyList([a], Ids(cs), "b") == ["a"];
  }

  // ----- properties of the decision chains -----

  /** `createComment` answers 500 for the time window, then 500 for an unknown
      user, then 500 for a bad signature, then 400 for empty text, in that order. */
  lemma CreateOrder(c: CommentDoc, now: int, perms: seq<PermissionDoc>, verify: CommentVerifier)
    ensures SkewMillisExceeds(c.createdAt, now) ==> CreateCheck(c, now, perms, verify) == TimeSkew
    ensures !SkewMillisExceeds(c.createdAt, now) && PermissionRecord(perms, c.user).None? ==>
      CreateCheck(c, now, perms, verify) == UnknownUser
    ensures !SkewMillisExceeds(c.createdAt, now) && PermissionRecord(perms, c.user).Some? && !verify(c, c.user) ==>
      CreateCheck(c, now, perms, verify) == BadSignature
    ensures CreateCheck(c, now, perms, verify) == EmptyContent <==>
      !SkewMillisExceeds(c.createdAt, now) && PermissionRecord(perms, c.user).Some? && verify(c, c.user) &&
      NoText(c.data)
    ensures Code(CreateCheck(c, now, perms, verify)) in {200, 400, 500}
  {
  }

  /** Comments use milliseconds on both sides: exactly five minutes passes,
      one millisecond more fails. */
  lemma CreateTimeBoundary(c: CommentDoc, now: int, perms: seq<PermissionDoc>, verify: CommentVerifier)
    requires -MAX_TIME <= now - 300001 && now + 300001 <= MAX_TIME
    ensures CreateCheck(c.(createdAt := Some(now - 300000)), now, perms, verify) != TimeSkew
    ensures CreateCheck(c.(createdAt := Some(now - 300001)), now, perms, verify) == TimeSkew
  {
  }

  /** A whitespace-only comment is refused with 400. */
  lemma WhitespaceCommentRefused(c: CommentDoc, now: int, perms: seq<PermissionDoc>, verify: CommentVerifier)
    requires CreateCheck(c, now, perms, verify) == Done
    ensures CreateCheck(c.(data := Some(" \t\n")), now, perms, verify) == EmptyContent ||
            !verify(c.(data := Some(" \t\n")), c.user)
  {
    assert Blank(" \t\n") by {
      assert forall i :: 0 <= i < 3 ==> IsSpace(" \t\n"[i]);
    }
  }

  /** Update and delete: a missing or already deleted comment gives 404, then
      anybody but the author and the admin gets 403. */
  lemma AccessGates(cs: seq<CommentDoc>, id: string, user: Option<string>, admin: string)
    ensures AccessCheck(cs, id, user, admin) == NotFound <==>
      forall c :: c in cs ==> !(c.id == id && c.isDeleted == Some(false))
    ensures AccessCheck(cs, id, user, admin) == Forbidden <==>
      Live(cs, id).Some? && user != Live(cs, id).value.user && user != Some(admin)
    ensures AccessCheck(cs, id, user, admin) in {NotFound, Forbidden, Done}
  {
  }

  /** A comment inserted by `createComment` without an explicit
      `isDeleted: false` can never be found by update or delete. */
  lemma UnflaggedCommentIsUnreachable(cs: seq<CommentDoc>, c: CommentDoc, now: int,
                                      user: Option<string>, admin: string)
    requires c.isDeleted.None?
    requires forall d :: d in cs ==> d.id != c.id
    ensures AccessCheck(cs + [c.(serverTimestamp := Some(now))], c.id, user, admin) == NotFound
  {
  }

  /** With distinct ids the comment that is edited or deleted is the one
      that passed the not-found check. */
  lemma TargetIsLiveWhenIdsUnique(cs: seq<CommentDoc>, id: string)
    requires forall i, j :: 0 <= i < j < |cs| ==> cs[i].id != cs[j].id
    requires Live(cs, id).Some?
    ensures Target(cs, id).Some? && cs[Target(cs, id).value] == Live(cs, id).value
  {
    var c := Live(cs, id).value;
    var i :| 0 <= i < |cs| && cs[i] == c;
    var k := Target(cs, id).value;
    assert !(i < k) && !(k < i);
  }

  /** The cascade marks only live direct replies: every other comment,
      including replies of replies, is unchanged, and nothing is removed. */
  lemma CascadeOnlyDirectChildren(cs: seq<CommentDoc>, id: string, now: int, k: nat)
    requires k < |cs|
    ensures |Cascaded(cs, id, now)| == |cs|
    ensures cs[k].parentId != Some(id) ==> Cascaded(cs, id, now)[k] == cs[k]
    ensures LiveChildOf(cs[k], id) ==> Cascaded(cs, id, now)[k].isDeleted == Some(true)
  {
  }

  /** A like moves the count by exactly one in the requested direction. */
  lemma LikeMovesByOne(c: CommentDoc, liked: bool)
    ensures Bumped(c, liked).likeCount.value - c.likeCount.GetOr(0) == (if liked then 1 else -1)
    ensures Bumped(Bumped(c, liked), !liked).likeCount == Some(c.likeCount.GetOr(0))
  {
  }

  /** The page never starts at a negative offset and defaults to 100 items:
      a query without a limit or a positive offset reads the first 100
      matching comments (all of them when there are fewer), and a negative
      offset reads the same page as no offset. */
  lemma PagingDefaults(cs: seq<CommentDoc>, q: CommentQuery)
    ensures q.offset.Some? && q.offset.value < 0 ==> PageOffset(q) == 0
    ensures q.limit.None? ==> PageLimit(q) == 100
    ensures var f := CommentFilter(q.tags, q.eventuser);
            var m := Query.Matching(cs, f);
            (q.limit.None? || q.limit == Some(0)) && (q.offset.None? || q.offset.value <= 0) ==>
              Query.Window(cs, f, PageOffset(q), PageLimit(q)) == m[..if |m| <= 100 then |m| else 100]
    ensures var f := CommentFilter(q.tags, q.eventuser);
            q.offset.Some? && q.offset.value < 0 ==>
              Query.Window(cs, f, PageOffset(q), PageLimit(q)) == Query.Window(cs, f, 0, PageLimit(q))
  {
  }

  /** A comment matches the query filter exactly when it is by the requested
      user (if one is given) and carries every requested tag; an empty tag
      list matches nothing. */
  lemma FilterIff(tags: Option<seq<Tag>>, eventuser: Option<string>, c: CommentDoc)
    ensures CommentFilter(tags, eventuser)(c) <==>
      (tags.Some? ==> c.tags.Some? && |tags.value| > 0 && forall t :: t in tags.value ==> t in c.tags.value) &&
      (Filled(eventuser) ==> c.user == eventuser)
    ensures tags == Some([]) ==> !CommentFilter(tags, eventuser)(c)
  {
  }
}
